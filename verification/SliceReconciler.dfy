/** The slice half of the workload reconciler, with its persistent memory of who owns which slice. */
module SliceReconciler {
  import opened Kubernetes
  import opened Events
  import opened UpnessThreshold
  import opened StateChanges

  /** A listed slice: `owner` is read from its labels, `terminating` says that a deletion time is set. */
  datatype Slice = Slice(name: string, owner: OwnerInfo, terminating: bool, conditions: seq<Condition>)

  /** What the API server answers: JobSets with their conditions, LeaderWorkerSets, and objects it cannot deliver. */
  datatype Cluster = Cluster(
    jobSets: map<ObjectKey, seq<Condition>>,
    workerSets: set<ObjectKey>,
    failing: set<ObjectKey>,
    workerSetsEnabled: bool)

  type Owners = map<string, OwnerInfo>

  const NO_OWNER := OwnerInfo("", "", "")
  const READY := "Ready"

  /******* Owners *******/

  /**
   * `strings.ToLower`, as far as it can matter: besides the ASCII capitals only the Kelvin sign has a lower case form
   * that is a letter of one of the two kinds.
   */
  function ToLower(s: string): (t: string)
    ensures |t| == |s|
  {
    seq(|s|, i requires 0 <= i < |s| => ToLowerChar(s[i]))
  }

  function ToLowerChar(c: char): char {
    if 'A' <= c <= 'Z' then (c as int + 32) as char
    else if c == '\U{212A}' then 'k'
    else c
  }

  datatype OwnerStatus = OwnerStatus(found: bool, terminal: bool, failed: bool)

  function StatusOf(cluster: Cluster, owner: OwnerInfo): OwnerStatus {
    var key, kind := ObjectKey(owner.namespace, owner.name), ToLower(owner.kind);
    if owner.name == "" || owner.namespace == "" then OwnerStatus(false, false, false)
    else if kind == "jobset" then
      if key in cluster.failing then OwnerStatus(false, false, true)
      else if key in cluster.jobSets then OwnerStatus(true, Terminal(cluster.jobSets[key]), false)
      else OwnerStatus(false, false, false)
    else if kind == "leaderworkerset" && cluster.workerSetsEnabled then
      if key in cluster.failing then OwnerStatus(false, false, true)
      else OwnerStatus(key in cluster.workerSets, false, false)
    else OwnerStatus(false, false, false)
  }

  /** The owner exists and has not come to its end. */
  predicate Active(cluster: Cluster, owner: OwnerInfo) {
    StatusOf(cluster, owner).found && !StatusOf(cluster, owner).terminal
  }

  /** The string is the word in any mixture of small and capital letters, or with Kelvin signs for its k's. */
  predicate Spells(s: string, small: string, capital: string)
    requires |small| == |capital|
  {
    |s| == |small| && forall i :: 0 <= i < |s| ==>
      s[i] == small[i] || s[i] == capital[i] || (small[i] == 'k' && s[i] == '\U{212A}')
  }

  lemma LowerCharIs(c: char, small: char, capital: char)
    requires 'a' <= small <= 'z' && capital as int == small as int - 32
    ensures ToLowerChar(c) == small <==> c == small || c == capital || (small == 'k' && c == '\U{212A}')
  {
  }

  lemma LowerIs(s: string, small: string, capital: string)
    requires |small| == |capital|
    requires forall i :: 0 <= i < |small| ==> 'a' <= small[i] <= 'z' && capital[i] as int == small[i] as int - 32
    ensures ToLower(s) == small <==> Spells(s, small, capital)
  {
    if |s| == |small| {
      forall i | 0 <= i < |s|
        ensures ToLower(s)[i] == small[i]
           <==> s[i] == small[i] || s[i] == capital[i] || (small[i] == 'k' && s[i] == '\U{212A}')
      {
        LowerCharIs(s[i], small[i], capital[i]);
      }
      assert ToLower(s) == small <==> forall i :: 0 <= i < |s| ==> ToLower(s)[i] == small[i];
    }
  }

  predicate JobSetKind(kind: string) {
    Spells(kind, "jobset", "JOBSET")
  }

  predicate WorkerSetKind(kind: string) {
    Spells(kind, "leaderworkerset", "LEADERWORKERSET")
  }

  /** Which owners are active, with the lookups spelled out. */
  lemma ActiveIff(cluster: Cluster, owner: OwnerInfo)
    ensures var key := ObjectKey(owner.namespace, owner.name);
            Active(cluster, owner)
            <==> && owner.name != "" && owner.namespace != "" && key !in cluster.failing
                 && (|| (JobSetKind(owner.kind) && key in cluster.jobSets && !Terminal(cluster.jobSets[key]))
                     || (WorkerSetKind(owner.kind) && cluster.workerSetsEnabled && key in cluster.workerSets))
    ensures !Active(cluster, OwnerInfo("", "", ""))
  {
    LowerIs(owner.kind, "jobset", "JOBSET");
    LowerIs(owner.kind, "leaderworkerset", "LEADERWORKERSET");
    assert "jobset"[0] != "leaderworkerset"[0];
  }

  method GetOwnerStatus(cluster: Cluster, owner: OwnerInfo) returns (status: OwnerStatus)
    ensures status == StatusOf(cluster, owner)
  {
    status := OwnerStatus(false, false, false);
    if owner.name == "" || owner.namespace == "" {
      return;
    }
    var key, kind := ObjectKey(owner.namespace, owner.name), ToLower(owner.kind);
    if kind == "jobset" {
      if key in cluster.failing {
        return OwnerStatus(false, false, true);
      }
      if key in cluster.jobSets {
        var _, terminal := GetJobSetTerminalState(cluster.jobSets[key]);
        return OwnerStatus(true, terminal, false);
      }
    } else if kind == "leaderworkerset" {
      if cluster.workerSetsEnabled {
        if key in cluster.failing {
          return OwnerStatus(false, false, true);
        }
        return OwnerStatus(key in cluster.workerSets, false, false);
      }
    }
  }

  /** The owners are looked up one slice at a time: the state of the cluster when each slice's turn comes. */
  type View = string -> Cluster

  /******* What is reported *******/

  /** The first "Ready" condition decides. */
  function ReadyStatus(conditions: seq<Condition>): Status {
    if conditions == [] then False
    else if conditions[0].kind == READY then conditions[0].status
    else ReadyStatus(conditions[1..])
  }

  function ListedUpness(cluster: Cluster, s: Slice): Upness {
    var status := if s.terminating then False else ReadyStatus(s.conditions);
    Upness(if status.True? then 1 else 0, 1, if status.Unknown? then 1 else 0,
           !Active(cluster, s.owner), false, Attrs(s.name, s.owner))
  }

  /** What the first "Ready" condition, if there is one, makes of a listed slice. */
  lemma {:induction false} ReadyStatusIsFirst(conditions: seq<Condition>, i: nat)
    requires i <= |conditions| && (forall j :: 0 <= j < i ==> conditions[j].kind != "Ready")
    requires i < |conditions| ==> conditions[i].kind == "Ready"
    ensures ReadyStatus(conditions) == if i < |conditions| then conditions[i].status else False
  {
    if i > 0 {
      ReadyStatusIsFirst(conditions[1..], i - 1);
    }
  }

  /**
   * A listed slice is one expected member, ready or unknown as its first "Ready" condition says unless it is being
   * deleted. It is expected to be down exactly if its owner is not active, and it never fails.
   */
  lemma ListedIs(cluster: Cluster, s: Slice, i: nat)
    requires i <= |s.conditions| && (forall j :: 0 <= j < i ==> s.conditions[j].kind != "Ready")
    requires i < |s.conditions| ==> s.conditions[i].kind == "Ready"
    ensures var up, seen := ListedUpness(cluster, s), i < |s.conditions| && !s.terminating;
            && up.expectedCount == 1
            && up.readyCount == (if seen && s.conditions[i].status == True then 1 else 0)
            && up.unknownCount == (if seen && s.conditions[i].status == Unknown then 1 else 0)
            && up.expectedDown == !Active(cluster, s.owner) && !up.failed
            && up.attrs == Attrs(s.name, s.owner)
  {
    ReadyStatusIsFirst(s.conditions, i);
  }

  /** A slice of unknown state is up exactly if its owner is active and the threshold is above one half. */
  lemma UnknownIsUpIff(cluster: Cluster, s: Slice, i: nat, now: int, threshold: real)
    requires ValidThreshold(threshold) && !s.terminating
    requires i < |s.conditions| && s.conditions[i] == Condition("Ready", Unknown)
    requires forall j :: 0 <= j < i ==> s.conditions[j].kind != "Ready"
    ensures Observe(now, ListedUpness(cluster, s), threshold).up <==> Active(cluster, s.owner) && threshold > 0.5
  {
    ListedIs(cluster, s, i);
    UpIff(ListedUpness(cluster, s), threshold, if threshold > 0.5 then 1 else 0);
  }

  /** A slice that is gone although its owner wants it. */
  function MissingUpness(name: string, owner: OwnerInfo): Upness {
    Upness(0, 1, 0, false, false, Attrs(name, owner))
  }

  /******* What is remembered *******/

  function OwnerOf(owners: Owners, name: string): OwnerInfo {
    if name in owners then owners[name] else NO_OWNER
  }

  function Names(slices: seq<Slice>): set<string> {
    set s | s in slices :: s.name
  }

  predicate DistinctNames(slices: seq<Slice>) {
    forall i, j :: 0 <= i < j < |slices| ==> slices[i].name != slices[j].name
  }

  /** The owners after the listed slices have been registered. */
  function Registered(owners: Owners, slices: seq<Slice>): Owners {
    if slices == [] then owners
    else
      var before, s := Registered(owners, DropLast(slices)), Last(slices);
      if OwnerOf(before, s.name) != s.owner then before[s.name := s.owner] else before
  }

  function ListedUps(view: View, slices: seq<Slice>): Ups {
    if slices == [] then map[]
    else ListedUps(view, DropLast(slices))[Last(slices).name := ListedUpness(view(Last(slices).name), Last(slices))]
  }

  /** Entries whose slice is neither listed nor wanted by an active owner are dropped, once they are looked at. */
  function Pruned(view: View, owners: Owners, listed: set<string>, todo: set<string>): Owners {
    map name | name in owners && (name in listed || name in todo || Active(view(name), owners[name])) :: owners[name]
  }

  function MissingUps(view: View, owners: Owners, listed: set<string>, todo: set<string>): Ups {
    map name | name in owners && name !in listed && name !in todo && Active(view(name), owners[name]) ::
      MissingUpness(name, owners[name])
  }

  function NextOwners(view: View, slices: seq<Slice>, owners: Owners): Owners {
    Pruned(view, Registered(owners, slices), Names(slices), {})
  }

  function NextUps(view: View, slices: seq<Slice>, owners: Owners): Ups {
    ListedUps(view, slices) + MissingUps(view, Registered(owners, slices), Names(slices), {})
  }

  /** The decoded owner map, updated in place. */
  class OwnerMap {
    var owners: Owners

    constructor (owners: Owners)
      ensures this.owners == owners
    {
      this.owners := owners;
    }
  }

  /** With distinct names, as the API server guarantees, the map is to be saved exactly if it has changed. */
  method ProcessSlices(view: View, slices: seq<Slice>, memory: OwnerMap) returns (slicesUp: Ups, changed: bool)
    modifies memory
    ensures slicesUp == NextUps(view, slices, old(memory.owners))
    ensures memory.owners == NextOwners(view, slices, old(memory.owners))
    ensures memory.owners != old(memory.owners) ==> changed
    ensures DistinctNames(slices) ==> (changed <==> memory.owners != old(memory.owners))
  {
    ghost var before := memory.owners;
    var registered, observed;
    slicesUp, observed, registered := RegisterListed(view, slices, memory);
    var pruned;
    slicesUp, pruned := ReconcileMissing(view, observed, slicesUp, memory);
    changed := registered || pruned;
    PruningKeepsChanges(view, before, slices);
  }

  /** The first loop: every listed slice is reported and its owner remembered. */
  method RegisterListed(view: View, slices: seq<Slice>, memory: OwnerMap)
    returns (slicesUp: Ups, observed: set<string>, changed: bool)
    modifies memory
    ensures slicesUp == ListedUps(view, slices) && observed == Names(slices)
    ensures memory.owners == Registered(old(memory.owners), slices)
    ensures memory.owners != old(memory.owners) ==> changed
    ensures DistinctNames(slices) ==> (changed <==> memory.owners != old(memory.owners))
  {
    slicesUp, observed, changed := map[], {}, false;
    ghost var before := memory.owners;
    for i := 0 to |slices|
      invariant slicesUp == ListedUps(view, slices[..i]) && observed == Names(slices[..i])
      invariant memory.owners == Registered(before, slices[..i])
      invariant memory.owners != before ==> changed
      invariant DistinctNames(slices) ==> (changed <==> memory.owners != before)
    {
      var s := slices[i];
      PrefixSnoc(slices, i);
      ListingStep(view, before, slices[..i], s);
      if DistinctNames(slices) {
        DistinctPrefix(slices, i + 1);
        RegisteredChanges(before, slices[..i], s);
      }
      observed := observed + {s.name};
      if OwnerOf(memory.owners, s.name) != s.owner {
        memory.owners := memory.owners[s.name := s.owner];
        changed := true;
      }
      var up := ReportListed(view(s.name), s);
      slicesUp := slicesUp[s.name := up];
    }
    assert slices[..|slices|] == slices;
  }

  lemma DistinctPrefix(slices: seq<Slice>, n: nat)
    requires DistinctNames(slices) && n <= |slices|
    ensures DistinctNames(slices[..n])
  {
  }

  lemma ListingStep(view: View, owners: Owners, slices: seq<Slice>, s: Slice)
    ensures Names(slices + [s]) == Names(slices) + {s.name}
    ensures ListedUps(view, slices + [s]) == ListedUps(view, slices)[s.name := ListedUpness(view(s.name), s)]
    ensures var before := Registered(owners, slices);
            Registered(owners, slices + [s])
            == if OwnerOf(before, s.name) != s.owner then before[s.name := s.owner] else before
  {
  }

  /** The observation of one listed slice. */
  method ReportListed(cluster: Cluster, s: Slice) returns (up: Upness)
    ensures up == ListedUpness(cluster, s)
  {
    var status := GetOwnerStatus(cluster, s.owner);
    var expectedDown := !status.found || status.terminal;
    up := Upness(0, 1, 0, expectedDown, false, Attrs(s.name, s.owner));
    if !s.terminating {
      var ready, unknown := CountReady(s.conditions);
      up := up.(readyCount := ready, unknownCount := unknown);
    }
  }

  method CountReady(conditions: seq<Condition>) returns (ready: int, unknown: int)
    ensures ready == (if ReadyStatus(conditions).True? then 1 else 0)
    ensures unknown == (if ReadyStatus(conditions).Unknown? then 1 else 0)
  {
    ready, unknown := 0, 0;
    for i := 0 to |conditions|
      invariant ready == unknown == 0 && ReadyStatus(conditions) == ReadyStatus(conditions[i..])
    {
      var c := conditions[i];
      if c.kind == READY {
        match c.status {
          case True => ready := 1;
          case Unknown => unknown := 1;
          case False =>
        }
        break;
      }
    }
  }

  /** The second loop: for every remembered slice that is not listed, in any order, ask for its owner. */
  method ReconcileMissing(view: View, observed: set<string>, ups: Ups, memory: OwnerMap)
    returns (slicesUp: Ups, changed: bool)
    modifies memory
    ensures memory.owners == Pruned(view, old(memory.owners), observed, {})
    ensures slicesUp == ups + MissingUps(view, old(memory.owners), observed, {})
    ensures changed <==> memory.owners != old(memory.owners)
  {
    slicesUp, changed := ups, false;
    ghost var before := memory.owners;
    var todo := memory.owners.Keys;
    PruningStarts(view, before, observed, ups);
    while todo != {}
      invariant todo <= before.Keys
      invariant memory.owners == Pruned(view, before, observed, todo)
      invariant slicesUp == ups + MissingUps(view, before, observed, todo)
      invariant changed <==> memory.owners != before
    {
      var name :| name in todo;
      PruningStep(view, before, observed, todo, name, ups);
      if name !in observed {
        var owner := memory.owners[name];
        var status := GetOwnerStatus(view(name), owner);
        if status.found && !status.terminal {
          slicesUp := slicesUp[name := MissingUpness(name, owner)];
        } else {
          memory.owners := memory.owners - {name};
          changed := true;
        }
      }
      todo := todo - {name};
    }
  }

  lemma PruningStarts(view: View, before: Owners, listed: set<string>, ups: Ups)
    ensures Pruned(view, before, listed, before.Keys) == before
    ensures ups + MissingUps(view, before, listed, before.Keys) == ups
  {
  }

  lemma PruningStep(view: View, before: Owners, listed: set<string>, todo: set<string>, name: string, ups: Ups)
    requires name in before && name in todo
    ensures var owners := Pruned(view, before, listed, todo);
            var owners' := Pruned(view, before, listed, todo - {name});
            var reported := ups + MissingUps(view, before, listed, todo);
            var reported' := ups + MissingUps(view, before, listed, todo - {name});
            && name in owners && owners[name] == before[name]
            && (name in listed ==> owners' == owners && reported' == reported)
            && (name !in listed && Active(view(name), before[name]) ==>
                  owners' == owners && reported' == reported[name := MissingUpness(name, before[name])])
            && (name !in listed && !Active(view(name), before[name]) ==>
                  owners' == owners - {name} && reported' == reported && owners' != before)
  {
    PrunedStep(view, before, listed, todo, name);
    MissingStep(view, before, listed, todo, name);
  }

  lemma PrunedStep(view: View, before: Owners, listed: set<string>, todo: set<string>, name: string)
    requires name in before && name in todo
    ensures var owners := Pruned(view, before, listed, todo);
            var owners' := Pruned(view, before, listed, todo - {name});
            && name in owners && owners[name] == before[name]
            && owners' == (if name in listed || Active(view(name), before[name]) then owners else owners - {name})
            && (name !in listed && !Active(view(name), before[name]) ==> owners' != before)
  {
  }

  lemma MissingStep(view: View, before: Owners, listed: set<string>, todo: set<string>, name: string)
    requires name in before && name in todo
    ensures var missing, missing' :=
              MissingUps(view, before, listed, todo), MissingUps(view, before, listed, todo - {name});
            missing' == if name !in listed && Active(view(name), before[name])
                        then missing[name := MissingUpness(name, before[name])] else missing
  {
  }

  /******* Owner-map laws *******/

  lemma NamesSnoc(slices: seq<Slice>)
    requires slices != []
    ensures Names(slices) == Names(DropLast(slices)) + {Last(slices).name}
  {
    assert slices == DropLast(slices) + [Last(slices)];
  }

  lemma {:induction false} RegisteredUnlisted(owners: Owners, slices: seq<Slice>, name: string)
    ensures name in owners ==> name in Registered(owners, slices)
    ensures name !in Names(slices) ==> OwnerOf(Registered(owners, slices), name) == OwnerOf(owners, name)
    ensures name !in Names(slices) ==> (name in Registered(owners, slices) <==> name in owners)
  {
    if slices != [] {
      NamesSnoc(slices);
      RegisteredUnlisted(owners, DropLast(slices), name);
    }
  }

  lemma {:induction false} RegisteredListed(owners: Owners, slices: seq<Slice>, i: nat)
    requires DistinctNames(slices) && i < |slices|
    ensures OwnerOf(Registered(owners, slices), slices[i].name) == slices[i].owner
    ensures slices[i].name in Registered(owners, slices)
       <==> slices[i].name in owners || slices[i].owner != NO_OWNER
  {
    var before := DropLast(slices);
    if i < |before| {
      RegisteredListed(owners, before, i);
    } else {
      RegisteredUnlisted(owners, before, slices[i].name);
    }
  }

  /** With distinct names a registration is never undone by a later one. */
  lemma RegisteredChanges(owners: Owners, slices: seq<Slice>, s: Slice)
    requires DistinctNames(slices + [s])
    ensures var before := Registered(owners, slices);
            before[s.name := s.owner] != owners || OwnerOf(before, s.name) == s.owner
    ensures var before := Registered(owners, slices);
            before != owners ==> before[s.name := s.owner] != owners
  {
    var before := Registered(owners, slices);
    var t := slices + [s];
    assert t[|slices|] == s;
    assert forall i :: 0 <= i < |slices| ==> t[i] == slices[i];
    assert s.name !in Names(slices);
    RegisteredUnlisted(owners, slices, s.name);
    var after := before[s.name := s.owner];
    if after == owners {
      assert OwnerOf(owners, s.name) == s.owner;
      assert before == owners;
    }
  }

  /** Dropping entries cannot restore the map that registering changed: only unlisted entries are dropped. */
  lemma PruningKeepsChanges(view: View, owners: Owners, slices: seq<Slice>)
    ensures var registered, next := Registered(owners, slices), NextOwners(view, slices, owners);
            next != owners <==> registered != owners || next != registered
  {
    var registered, next := Registered(owners, slices), NextOwners(view, slices, owners);
    if next == owners {
      forall name ensures name in registered <==> name in owners {
        RegisteredUnlisted(owners, slices, name);
        assert name in Names(slices) && name in registered ==> name in next;
      }
      forall name | name in owners ensures registered[name] == owners[name] {
        assert name in next && next[name] == registered[name];
      }
      assert registered == owners;
    }
  }

  lemma {:induction false} ListedUpsKeys(view: View, slices: seq<Slice>)
    ensures ListedUps(view, slices).Keys == Names(slices)
  {
    if slices != [] {
      NamesSnoc(slices);
      ListedUpsKeys(view, DropLast(slices));
    }
  }

  lemma {:induction false} ListedUpsAt(view: View, slices: seq<Slice>, i: nat)
    requires DistinctNames(slices) && i < |slices|
    ensures slices[i].name in ListedUps(view, slices)
    ensures ListedUps(view, slices)[slices[i].name] == ListedUpness(view(slices[i].name), slices[i])
  {
    if i < |slices| - 1 {
      ListedUpsAt(view, DropLast(slices), i);
    }
  }

  /** The reported slices are exactly the listed ones and the remembered ones. */
  lemma ReportedKeys(view: View, slices: seq<Slice>, owners: Owners)
    ensures NextUps(view, slices, owners).Keys == Names(slices) + NextOwners(view, slices, owners).Keys
  {
    var reported, next := NextUps(view, slices, owners), NextOwners(view, slices, owners);
    ListedUpsKeys(view, slices);
    assert forall name :: name in reported <==> name in Names(slices) || name in next;
  }

  /** A remembered slice that is not listed stays remembered, and reported as down, iff its owner is active. */
  lemma UnlistedKeptIff(view: View, slices: seq<Slice>, owners: Owners, name: string)
    requires name !in Names(slices)
    ensures name in NextOwners(view, slices, owners) <==> name in owners && Active(view(name), owners[name])
    ensures name in NextUps(view, slices, owners) <==> name in owners && Active(view(name), owners[name])
    ensures name in owners && Active(view(name), owners[name]) ==>
              && NextOwners(view, slices, owners)[name] == owners[name]
              && NextUps(view, slices, owners)[name] == Upness(0, 1, 0, false, false, Attrs(name, owners[name]))
  {
    RegisteredUnlisted(owners, slices, name);
    ListedUpsKeys(view, slices);
  }

  /** A listed slice is remembered with its current owner, unless it has none at all and was unknown before. */
  lemma ListedRemembered(view: View, slices: seq<Slice>, owners: Owners, i: nat)
    requires DistinctNames(slices) && i < |slices|
    ensures var s, next := slices[i], NextOwners(view, slices, owners);
            && (s.name in next <==> s.name in owners || s.owner != OwnerInfo("", "", ""))
            && (s.name in next ==> next[s.name] == s.owner)
            && s.name in NextUps(view, slices, owners)
            && NextUps(view, slices, owners)[s.name] == ListedUpness(view(s.name), s)
  {
    var s := slices[i];
    assert s.name in Names(slices);
    RegisteredListed(owners, slices, i);
    ListedUpsAt(view, slices, i);
  }

  /** The reconciler, which keeps the owner map in a ConfigMap between rounds. */
  class WorkloadReconciler {
    var configMap: Owners
    ghost var failures: nat  // saves that failed

    constructor ()
      ensures configMap == map[] && failures == 0
    {
      configMap := map[];
      failures := 0;
    }

    /** The map is saved only if it was changed; that loses nothing, so only a failing save does. */
    method ReconcileSlices(view: View, slices: seq<Slice>) returns (slicesUp: Ups, upToDate: bool)
      modifies this
      ensures slicesUp == NextUps(view, slices, old(configMap))
      ensures configMap == if upToDate then NextOwners(view, slices, old(configMap)) else old(configMap)
      ensures failures == old(failures) + if upToDate then 0 else 1
    {
      var memory := new OwnerMap(configMap);
      var changed;
      slicesUp, changed := ProcessSlices(view, slices, memory);
      upToDate := true;
      if changed {
        upToDate := Save(memory.owners);
      }
    }

    method Save(owners: Owners) returns (ok: bool)
      modifies this
      ensures configMap == if ok then owners else old(configMap)
      ensures failures == old(failures) + if ok then 0 else 1
    {
      if * {
        ok := false;
        failures := failures + 1;
      } else {
        configMap := owners;
        ok := true;
      }
    }
  }
}

/** When the order in which the nodes are listed matters to the counts. */
module NodeOrder {
  import opened MachineInts
  import opened Wrappers
  import opened Kubernetes
  import opened Events
  import opened StateChanges
  import opened NodeCounting

  /******* Counting the elements with a property *******/

  function Count<T>(s: seq<T>, p: T -> bool): nat {
    if s == [] then 0 else Count(DropLast(s), p) + if p(Last(s)) then 1 else 0
  }

  lemma {:induction false} CountConcat<T>(a: seq<T>, b: seq<T>, p: T -> bool)
    ensures Count(a + b, p) == Count(a, p) + Count(b, p)
  {
    if b == [] {
      assert a + b == a;
    } else {
      assert DropLast(a + b) == a + DropLast(b);
      CountConcat(a, DropLast(b), p);
    }
  }

  lemma CountWithout<T>(s: seq<T>, i: nat, p: T -> bool)
    requires i < |s|
    ensures Count(s, p) == Count(s[..i] + s[i + 1..], p) + if p(s[i]) then 1 else 0
  {
    SplitAround(s, i);
    CountConcat(s[..i], s[i + 1..], p);
    CountConcat(s[..i], [s[i]] + s[i + 1..], p);
    CountConcat([s[i]], s[i + 1..], p);
    CountOfOne(s[i], p);
  }

  lemma SplitAround<T>(s: seq<T>, i: nat)
    requires i < |s|
    ensures s == s[..i] + ([s[i]] + s[i + 1..])
  {
  }

  lemma CountOfOne<T>(x: T, p: T -> bool)
    ensures Count([x], p) == if p(x) then 1 else 0
  {
    assert DropLast([x]) == [];
  }

  lemma {:induction false} FirstIndex<T>(s: seq<T>, p: T -> bool) returns (i: nat)
    requires exists k :: 0 <= k < |s| && p(s[k])
    ensures i < |s| && p(s[i]) && forall k :: 0 <= k < i ==> !p(s[k])
  {
    i := 0;
    if !p(s[0]) {
      var k :| 0 <= k < |s| && p(s[k]);
      assert s[1..][k - 1] == s[k];
      var rest := FirstIndex(s[1..], p);
      i := rest + 1;
    }
  }

  lemma MultisetWithout<T>(s: seq<T>, i: nat)
    requires i < |s|
    ensures multiset(s) == multiset(s[..i] + s[i + 1..]) + multiset{s[i]}
  {
    assert s == s[..i] + [s[i]] + s[i + 1..];
  }

  /** Wherever the last element of one list stands in a permutation of it, taking it out leaves a permutation. */
  lemma TakeOut<T>(a: seq<T>, b: seq<T>) returns (i: nat)
    requires a != [] && multiset(a) == multiset(b)
    ensures i < |b| && b[i] == Last(a)
    ensures multiset(DropLast(a)) == multiset(b[..i] + b[i + 1..])
  {
    assert Last(a) in multiset(a);
    i :| 0 <= i < |b| && b[i] == Last(a);
    MultisetWithout(b, i);
    assert a == DropLast(a) + [Last(a)];
    assert multiset(DropLast(a)) == multiset(a) - multiset{Last(a)};
  }

  lemma {:induction false} CountPermutation<T>(a: seq<T>, b: seq<T>, p: T -> bool)
    requires multiset(a) == multiset(b)
    ensures Count(a, p) == Count(b, p)
    decreases |a|
  {
    if a == [] {
      assert |multiset(b)| == 0;
    } else {
      var i := TakeOut(a, b);
      CountPermutation(DropLast(a), b[..i] + b[i + 1..], p);
      CountWithout(b, i, p);
    }
  }

  lemma SameElements<T>(a: seq<T>, b: seq<T>)
    requires multiset(a) == multiset(b)
    ensures forall x :: x in a ==> x in b
  {
    assert forall x :: x in a ==> x in multiset(a);
  }

  lemma SplitAt<T>(s: seq<T>, i: nat)
    requires i <= |s|
    ensures s[..i] + s[i..] == s
  {
  }

  function ToFront<T>(s: seq<T>, i: nat): seq<T>
    requires i < |s|
  {
    [s[i]] + (s[..i] + s[i + 1..])
  }

  lemma ToFrontPermutes<T>(s: seq<T>, i: nat)
    requires i < |s|
    ensures multiset(ToFront(s, i)) == multiset(s)
  {
    MultisetWithout(s, i);
  }

  /******* The node counts do not depend on the order *******/

  lemma {:induction false} MatchingIsCount(g: Grouping, nodes: seq<Node>, key: string, status: Status)
    ensures Matching(g, nodes, key, status) == Count(nodes, (n: Node) => IsMatch(g, n, key, status))
  {
    if nodes != [] {
      MatchingIsCount(g, DropLast(nodes), key, status);
    }
  }

  lemma {:induction false} ReadableIsCount(nodes: seq<Node>, key: string, status: Status)
    ensures Readable(nodes, key, status)
         == Count(nodes, (n: Node) => IsMatch(ByPool, n, key, status) && NodeSize(n).Ok?)
  {
    if nodes != [] {
      ReadableIsCount(DropLast(nodes), key, status);
    }
  }

  lemma MatchingPermutation(g: Grouping, a: seq<Node>, b: seq<Node>, key: string, status: Status)
    requires multiset(a) == multiset(b)
    ensures Matching(g, a, key, status) == Matching(g, b, key, status)
  {
    MatchingIsCount(g, a, key, status);
    MatchingIsCount(g, b, key, status);
    CountPermutation(a, b, (n: Node) => IsMatch(g, n, key, status));
  }

  lemma ReadablePermutation(a: seq<Node>, b: seq<Node>, key: string, status: Status)
    requires multiset(a) == multiset(b)
    ensures Readable(a, key, status) == Readable(b, key, status)
  {
    ReadableIsCount(a, key, status);
    ReadableIsCount(b, key, status);
    CountPermutation(a, b, (n: Node) => IsMatch(ByPool, n, key, status) && NodeSize(n).Ok?);
  }

  lemma MatchingConcat(g: Grouping, a: seq<Node>, b: seq<Node>, key: string, status: Status)
    ensures Matching(g, a + b, key, status) == Matching(g, a, key, status) + Matching(g, b, key, status)
  {
    MatchingIsCount(g, a, key, status);
    MatchingIsCount(g, b, key, status);
    MatchingIsCount(g, a + b, key, status);
    CountConcat(a, b, (n: Node) => IsMatch(g, n, key, status));
  }

  /** The order in which the nodes are listed does not matter to a JobSet, or to a pool of known size. */
  lemma OrderIsIrrelevant(g: Grouping, ups: Ups, a: seq<Node>, b: seq<Node>, key: string)
    requires multiset(a) == multiset(b)
    requires key in ups && (g.ByJobSet? || ups[key].expectedCount != 0)
    ensures CountedAll(g, ups, a)[key] == CountedAll(g, ups, b)[key]
  {
    CountsAreExact(g, ups, a, key);
    CountsAreExact(g, ups, b, key);
    forall status ensures Heeded(g, ups[key].expectedCount, a, key, status)
                       == Heeded(g, ups[key].expectedCount, b, key, status) {
      SizedHeedsAll(g, ups[key].expectedCount, a, key, status);
      SizedHeedsAll(g, ups[key].expectedCount, b, key, status);
      MatchingPermutation(g, a, b, key, status);
    }
    SizedHeedsAll(g, ups[key].expectedCount, a, key, True);
    SizedHeedsAll(g, ups[key].expectedCount, b, key, True);
  }

  /******* Pools without a size *******/

  predicate Owns(key: string, node: Node) {
    OwnerIn(ByPool, node) == Some(key)
  }

  function SizeTold(node: Node): int32
    requires TellsSize(node)
  {
    Wrap32(NodeSize(node).value)
  }

  /** The nodes of the pool that tell a size tell the same one, and from every node to be counted some can be read. */
  predicate Agreed(nodes: seq<Node>, key: string) {
    && (forall n, m :: n in nodes && m in nodes && Owns(key, n) && Owns(key, m) && TellsSize(n) && TellsSize(m) ==>
          SizeTold(n) == SizeTold(m))
    && AllReadable(nodes, key)
  }

  predicate AllReadable(nodes: seq<Node>, key: string) {
    forall n :: n in nodes && Owns(key, n) && !n.status.False? ==> NodeSize(n).Ok?
  }

  /** The counts of the key are the same for every order of the list. */
  ghost predicate OrderFree(g: Grouping, ups: Ups, nodes: seq<Node>, key: string)
    requires key in ups
  {
    forall b :: multiset(b) == multiset(nodes) ==> CountedAll(g, ups, b)[key] == CountedAll(g, ups, nodes)[key]
  }

  /** What the counting makes of a pool without a size. */
  predicate SameOutcome(a: seq<Node>, b: seq<Node>, key: string) {
    && SizeAfter(ByPool, 0, a, key) == SizeAfter(ByPool, 0, b, key)
    && Heeded(ByPool, 0, a, key, True) == Heeded(ByPool, 0, b, key, True)
    && Heeded(ByPool, 0, a, key, Unknown) == Heeded(ByPool, 0, b, key, Unknown)
  }

  predicate Sizeless(ups: Ups, key: string) {
    key in ups && ups[key].expectedCount == ups[key].readyCount == ups[key].unknownCount == 0
  }

  lemma OutcomeDecides(ups: Ups, a: seq<Node>, b: seq<Node>, key: string)
    requires Sizeless(ups, key) && |a| <= MAX_INT32 && |b| <= MAX_INT32
    ensures CountedAll(ByPool, ups, a)[key] == CountedAll(ByPool, ups, b)[key] <==> SameOutcome(a, b, key)
  {
    CountsAreExact(ByPool, ups, a, key);
    CountsAreExact(ByPool, ups, b, key);
    CountsFromZero(ByPool, ups, a, key);
    CountsFromZero(ByPool, ups, b, key);
  }

  lemma {:induction false} AllReadableMatch(nodes: seq<Node>, key: string, status: Status)
    requires AllReadable(nodes, key) && !status.False?
    ensures Readable(nodes, key, status) == Matching(ByPool, nodes, key, status)
  {
    if nodes != [] {
      assert Last(nodes) in nodes;
      AllReadableMatch(DropLast(nodes), key, status);
    }
  }

  lemma FirstTeller(nodes: seq<Node>, key: string) returns (i: nat)
    requires !Unsized(nodes, key)
    ensures i < |nodes| && Owns(key, nodes[i]) && TellsSize(nodes[i]) && Unsized(nodes[..i], key)
  {
    i := FirstIndex(nodes, (n: Node) => Owns(key, n) && TellsSize(n));
  }

  /** In an agreed list with a size every node is counted, whichever tells the size first. */
  lemma AgreedOutcome(nodes: seq<Node>, key: string, status: Status, teller: Node)
    requires Agreed(nodes, key) && !status.False?
    requires teller in nodes && Owns(key, teller) && TellsSize(teller)
    ensures SizeAfter(ByPool, 0, nodes, key) == SizeTold(teller)
    ensures Heeded(ByPool, 0, nodes, key, status) == Matching(ByPool, nodes, key, status)
  {
    var i := FirstTeller(nodes, key);
    FirstSizeDecides(nodes, key, status, i);
    AllReadableMatch(nodes[..i], key, status);
    MatchingConcat(ByPool, nodes[..i], nodes[i..], key, status);
    SplitAt(nodes, i);
    assert SizeTold(nodes[i]) == SizeTold(teller);
  }

  lemma AgreedPermutation(a: seq<Node>, b: seq<Node>, key: string)
    requires multiset(a) == multiset(b) && Agreed(a, key)
    ensures Agreed(b, key)
  {
    SameElements(b, a);
    forall n | n in b && Owns(key, n) && !n.status.False? ensures NodeSize(n).Ok? {
      assert n in a;
    }
    forall n, m | n in b && m in b && Owns(key, n) && Owns(key, m) && TellsSize(n) && TellsSize(m)
      ensures SizeTold(n) == SizeTold(m)
    {
      assert n in a && m in a;
    }
  }

  lemma UnsizedPermutation(a: seq<Node>, b: seq<Node>, key: string)
    requires multiset(a) == multiset(b) && Unsized(a, key)
    ensures Unsized(b, key)
  {
    SameElements(b, a);
    forall i | 0 <= i < |b| && OwnerIn(ByPool, b[i]) == Some(key) ensures !TellsSize(b[i]) {
      assert b[i] in a;
    }
  }

  lemma UnsizedIsOrderFree(a: seq<Node>, b: seq<Node>, key: string)
    requires multiset(a) == multiset(b) && Unsized(a, key)
    ensures SameOutcome(a, b, key)
  {
    UnsizedPermutation(a, b, key);
    forall status ensures Heeded(ByPool, 0, a, key, status) == Heeded(ByPool, 0, b, key, status) {
      UnsizedHeedsReadable(a, key, status);
      UnsizedHeedsReadable(b, key, status);
      ReadablePermutation(a, b, key, status);
    }
    UnsizedHeedsReadable(a, key, True);
    UnsizedHeedsReadable(b, key, True);
  }

  lemma AgreedIsOrderFree(a: seq<Node>, b: seq<Node>, key: string)
    requires multiset(a) == multiset(b) && Agreed(a, key) && !Unsized(a, key)
    ensures SameOutcome(a, b, key)
  {
    var i := FirstTeller(a, key);
    AgreedPermutation(a, b, key);
    SameElements(a, b);
    forall status: Status | !status.False?
      ensures Heeded(ByPool, 0, a, key, status) == Heeded(ByPool, 0, b, key, status)
    {
      AgreedOutcome(a, key, status, a[i]);
      AgreedOutcome(b, key, status, a[i]);
      MatchingPermutation(ByPool, a, b, key, status);
    }
    AgreedOutcome(a, key, True, a[i]);
    AgreedOutcome(b, key, True, a[i]);
  }

  /** A node that tells a size, moved to the front, sizes the pool for all of them. */
  lemma TellerInFront(nodes: seq<Node>, i: nat, key: string, status: Status)
    requires i < |nodes| && Owns(key, nodes[i]) && TellsSize(nodes[i])
    ensures SizeAfter(ByPool, 0, ToFront(nodes, i), key) == SizeTold(nodes[i])
    ensures Heeded(ByPool, 0, ToFront(nodes, i), key, status) == Matching(ByPool, nodes, key, status)
  {
    var front := ToFront(nodes, i);
    ToFrontPermutes(nodes, i);
    assert front[..0] == [] && front[0..] == front;
    FirstSizeDecides(front, key, status, 0);
    MatchingPermutation(ByPool, front, nodes, key, status);
  }

  /** A node from which no size can be read, in front of all others, is not counted. */
  lemma {:induction false} UnreadableInFront(node: Node, rest: seq<Node>, key: string, status: Status)
    requires NodeSize(node).Err?
    ensures Heeded(ByPool, 0, [node] + rest, key, status) <= Matching(ByPool, rest, key, status)
  {
    var nodes := [node] + rest;
    HeededLast(ByPool, 0, nodes, key, status);
    if rest == [] {
      assert nodes == [node] && DropLast(nodes) == [];
    } else {
      assert DropLast(nodes) == [node] + DropLast(rest) && Last(nodes) == Last(rest);
      UnreadableInFront(node, DropLast(rest), key, status);
    }
  }

  lemma UnreadableIsLost(nodes: seq<Node>, j: nat, key: string)
    requires j < |nodes| && Owns(key, nodes[j]) && NodeSize(nodes[j]).Err?
    ensures Heeded(ByPool, 0, ToFront(nodes, j), key, nodes[j].status)
          < Matching(ByPool, nodes, key, nodes[j].status)
  {
    var rest, status := nodes[..j] + nodes[j + 1..], nodes[j].status;
    UnreadableInFront(nodes[j], rest, key, status);
    ToFrontPermutes(nodes, j);
    MatchingPermutation(ByPool, ToFront(nodes, j), nodes, key, status);
    MatchingConcat(ByPool, [nodes[j]], rest, key, status);
    assert DropLast([nodes[j]]) == [];
  }

  /** The nodes as they stand, and with one of them moved to the front, count the same. */
  predicate FrontFree(nodes: seq<Node>, key: string) {
    forall i :: 0 <= i < |nodes| ==> SameOutcome(ToFront(nodes, i), nodes, key)
  }

  lemma FrontFreeIsAgreed(nodes: seq<Node>, key: string)
    requires FrontFree(nodes, key) && !Unsized(nodes, key)
    ensures Agreed(nodes, key)
  {
    var i := FirstTeller(nodes, key);
    assert SameOutcome(ToFront(nodes, i), nodes, key);
    forall n | n in nodes && Owns(key, n) && TellsSize(n) ensures SizeTold(n) == SizeTold(nodes[i]) {
      var j :| 0 <= j < |nodes| && nodes[j] == n;
      assert SameOutcome(ToFront(nodes, j), nodes, key);
      TellerInFront(nodes, i, key, True);
      TellerInFront(nodes, j, key, True);
    }
    forall n | n in nodes && Owns(key, n) && !n.status.False? ensures NodeSize(n).Ok? {
      var j :| 0 <= j < |nodes| && nodes[j] == n;
      FrontFreeIsReadable(nodes, i, j, key);
    }
  }

  lemma FrontFreeIsReadable(nodes: seq<Node>, i: nat, j: nat, key: string)
    requires i < |nodes| && Owns(key, nodes[i]) && TellsSize(nodes[i])
    requires j < |nodes| && Owns(key, nodes[j]) && !nodes[j].status.False?
    requires FrontFree(nodes, key)
    ensures NodeSize(nodes[j]).Ok?
  {
    var status := nodes[j].status;
    assert SameOutcome(ToFront(nodes, i), nodes, key) && SameOutcome(ToFront(nodes, j), nodes, key);
    assert Heeded(ByPool, 0, ToFront(nodes, i), key, status) == Heeded(ByPool, 0, ToFront(nodes, j), key, status);
    TellerInFront(nodes, i, key, status);
    if NodeSize(nodes[j]).Err? {
      UnreadableIsLost(nodes, j, key);
    }
  }

  lemma OrderFreeIsFrontFree(ups: Ups, nodes: seq<Node>, key: string)
    requires Sizeless(ups, key) && |nodes| <= MAX_INT32 && OrderFree(ByPool, ups, nodes, key)
    ensures FrontFree(nodes, key)
  {
    forall i | 0 <= i < |nodes| ensures SameOutcome(ToFront(nodes, i), nodes, key) {
      ToFrontPermutes(nodes, i);
      OutcomeDecides(ups, ToFront(nodes, i), nodes, key);
    }
  }

  /** When the order of the list does not matter to a pool without a size. */
  lemma SizelessIsOrderFreeIff(ups: Ups, nodes: seq<Node>, key: string)
    requires Sizeless(ups, key) && |nodes| <= MAX_INT32
    ensures OrderFree(ByPool, ups, nodes, key) <==> Unsized(nodes, key) || Agreed(nodes, key)
  {
    if OrderFree(ByPool, ups, nodes, key) && !Unsized(nodes, key) {
      OrderFreeIsFrontFree(ups, nodes, key);
      FrontFreeIsAgreed(nodes, key);
    }
    if Unsized(nodes, key) || Agreed(nodes, key) {
      forall b | multiset(b) == multiset(nodes)
        ensures CountedAll(ByPool, ups, b)[key] == CountedAll(ByPool, ups, nodes)[key]
      {
        SameLength(b, nodes);
        if Unsized(nodes, key) {
          UnsizedIsOrderFree(nodes, b, key);
        } else {
          AgreedIsOrderFree(nodes, b, key);
        }
        OutcomeDecides(ups, b, nodes, key);
      }
    }
  }

  lemma SameLength<T>(a: seq<T>, b: seq<T>)
    requires multiset(a) == multiset(b)
    ensures |a| == |b|
  {
    assert |multiset(a)| == |a| && |multiset(b)| == |b|;
  }

  /**
   * The exact condition: the counts of a key are independent of the order of the list iff it is a JobSet, or a pool of
   * known size, or no node of the pool tells a size, or those that do agree and a size can be read from every ready or
   * unknown node.
   */
  lemma OrderFreeIff(g: Grouping, ups: Ups, nodes: seq<Node>, key: string)
    requires key in ups && ups[key].readyCount == ups[key].unknownCount == 0 && |nodes| <= MAX_INT32
    ensures OrderFree(g, ups, nodes, key)
       <==> g.ByJobSet? || ups[key].expectedCount != 0 || Unsized(nodes, key) || Agreed(nodes, key)
  {
    if g.ByJobSet? || ups[key].expectedCount != 0 {
      forall b | multiset(b) == multiset(nodes)
        ensures CountedAll(g, ups, b)[key] == CountedAll(g, ups, nodes)[key]
      {
        OrderIsIrrelevant(g, ups, b, nodes, key);
      }
    } else {
      SizelessIsOrderFreeIff(ups, nodes, key);
    }
  }

  /******* Two nodes *******/

  /** Two ready nodes of the pool; from the first no size can be read, the second tells one. */
  predicate BlankAndSized(key: string, blank: Node, sized: Node) {
    && IsMatch(ByPool, blank, key, True) && NodeSize(blank).Err?
    && IsMatch(ByPool, sized, key, True) && TellsSize(sized)
  }

  lemma BlankFirst(key: string, blank: Node, sized: Node, status: Status)
    requires BlankAndSized(key, blank, sized)
    ensures SizeAfter(ByPool, 0, [blank, sized], key) == SizeTold(sized)
    ensures Heeded(ByPool, 0, [blank, sized], key, status) == if status.True? then 1 else 0
  {
    FirstSizeDecides([blank, sized], key, status, 1);
    assert [blank, sized][..1] == [blank] && [blank, sized][1..] == [sized];
    assert DropLast([sized]) == [] && DropLast([blank]) == [];
  }

  lemma SizedFirst(key: string, blank: Node, sized: Node, status: Status)
    requires BlankAndSized(key, blank, sized)
    ensures SizeAfter(ByPool, 0, [sized, blank], key) == SizeTold(sized)
    ensures Heeded(ByPool, 0, [sized, blank], key, status) == if status.True? then 2 else 0
  {
    FirstSizeDecides([sized, blank], key, status, 0);
    assert [sized, blank][..0] == [] && [sized, blank][0..] == [sized, blank];
    assert DropLast([sized, blank]) == [sized] && DropLast([sized]) == [];
  }

  /** The blank node is counted only if it is listed after the other. */
  lemma OrderMatters(ups: Ups, key: string, blank: Node, sized: Node)
    requires Sizeless(ups, key) && BlankAndSized(key, blank, sized)
    ensures var up, up' := CountedAll(ByPool, ups, [blank, sized])[key], CountedAll(ByPool, ups, [sized, blank])[key];
            && up.readyCount == 1 && up'.readyCount == 2
            && up.unknownCount == up'.unknownCount == 0
            && up.expectedCount == up'.expectedCount == SizeTold(sized)
            && up.expectedDown == up'.expectedDown == ups[key].expectedDown
  {
    CountsFromZero(ByPool, ups, [blank, sized], key);
    CountsFromZero(ByPool, ups, [sized, blank], key);
    BlankFirst(key, blank, sized, True);
    BlankFirst(key, blank, sized, Unknown);
    SizedFirst(key, blank, sized, True);
    SizedFirst(key, blank, sized, Unknown);
  }
}

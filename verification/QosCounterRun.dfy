/** The QOS client with its counters in the tree, against the same server: the
    positions of a keyword below the root are miscounted, and a search misses them. */
module QosCounterRun {
  import opened Powers
  import opened HeapTree
  import opened Collections
  import opened AvlTree
  import opened QosVisit
  import opened QosCover
  import opened QosServer
  import opened QosState
  import opened QosClient
  import opened QosCounter
  import opened QosRun

  datatype Reply = Nothing | Just(counters: Counters)

  /** The string that the increments return: the counters before the change. */
  function Before(t: Tree<Counters>, key: int): Reply {
    if t.Leaf? then Nothing
    else if key < t.key then Before(t.left, key)
    else if key > t.key then Before(t.right, key)
    else Just(t.value)
  }

  /** The counters that an insert of the keyword uses. */
  function Used(t: Tree<Counters>, key: int): Counters {
    match Before(t, key)
    case Nothing => Counters(0, 0)
    case Just(c) => Counters(c.src, c.aw + 1)
  }

  /** The tree after incrementAwCnt, which inserts an unknown key. */
  function Counted(t: Tree<Counters>, key: int): Tree<Counters> {
    if Before(t, key).Nothing? then AvlTree.Insert(t, key, Counters(0, 0)) else IncrementAw(t, key)
  }

  /** insert of the client: the entry goes to the leaf that the counters name. */
  method Insert(server: Server, t: Tree<Counters>, key: int, keyword: string, id: int) returns (t': Tree<Counters>)
    requires Used(t, key).aw < Pow2(server.h)
    modifies server
    ensures t' == Counted(t, key) && server.dstate == old(server.dstate)
    ensures var c := Used(t, key);
            var tag := Tag(Token(keyword, c.src), Pow2(server.h) + c.aw - 1);
            server.entries == old(server.entries)[tag := Entry(keyword, id)]
  {
    var c := Used(t, key);
    t' := Counted(t, key);
    var node := GetNodeOnPath(server.h, c.aw, server.h + 1, server.h + 1);
    server.Insert(Tag(Token(keyword, c.src), node), Entry(keyword, id));
  }

  /** search of the client up to the answer: the ids found, in position order, and
      how often the server reports data already removed. The write-back that follows
      does not change them. */
  method Search(server: Server, t: Tree<Counters>, key: int, keyword: string)
    returns (t': Tree<Counters>, ids: seq<int>, missing: nat)
    requires Before(t, key).Just? && Before(t, key).counters.aw < Pow2(server.h) && server.dstate == {}
    modifies server
    ensures t' == IncrementSrc(t, key)
    ensures var c := Before(t, key).counters;
            var token, cover := Token(keyword, c.src), CoverFrom(Pow2(server.h), Pow2(server.h) + c.aw + 1);
            && TreeNodes(server.h, cover)
            && var indexes := QosServer.FoundAll(server.h, cover, {});
            && |ids| == |Lookup(old(server.entries), token, indexes)|
            && missing == Absent(old(server.entries), token, indexes)
  {
    hide *;
    var c := Before(t, key).counters;
    t' := IncrementSrc(t, key);
    var token := Token(keyword, c.src);
    NoMarks(server.h, token);
    var result, deletes, calls, n, _ := server.Search(token, c.aw);
    missing := n;
    ids := IdsInOrder(result);
  }

  method IdsInOrder(result: map<int, Entry>) returns (ids: seq<int>)
    ensures |ids| == |result|
  {
    var order := OrderedKeys(result.Keys);
    ids := [];
    forall j | 0 <= j < |order| ensures order[j] in result { assert order[j] in order; }
    for i := 0 to |order|
      invariant |ids| == i
    {
      ids := ids + [result[order[i]].id];
    }
    AscendingSize(order, result.Keys);
  }

  lemma NoMarks(h: nat, token: Token)
    ensures Marks({}, token) == {} && InTree(h, Marks({}, token))
  {
  }

  lemma {:induction false} AscendingSize(order: seq<int>, keys: set<int>)
    requires Ascending(order) && forall x :: x in order <==> x in keys
    ensures |order| == |keys|
  {
    if order == [] {
      forall x ensures x !in keys { assert x !in order; }
      EmptySet(keys);
    } else {
      var n := |order| - 1;
      assert order == order[..n] + [order[n]];
      assert order[n] in order;
      forall x ensures x in order[..n] <==> x in keys - {order[n]} {
        assert x in order <==> x in order[..n] || x == order[n];
      }
      AscendingSize(order[..n], keys - {order[n]});
    }
  }

  /** The first leaf alone is visited for one position. */
  lemma OneLeaf(h: nat)
    ensures var cover := CoverFrom(Pow2(h), Pow2(h) + 1);
            TreeNodes(h, cover) && QosServer.FoundAll(h, cover, {}) == [Pow2(h) - 1]
  {
    hide *;
    LeafInTree(h, 0);
    OneCover(h);
    OneFound(h, CoverFrom(Pow2(h), Pow2(h) + 1), Pow2(h));
  }

  lemma OneCover(h: nat)
    ensures CoverFrom(Pow2(h), Pow2(h) + 1) == [Pow2(h)]
  {
    hide CoverFrom, Climb, FloorLog2, Pow2;
    LogOfOne();
    CoverUnfolds(Pow2(h), Pow2(h) + 1);
    CoverEnds(Pow2(h) + 1);
    ClimbNothing(Pow2(h));
  }

  lemma OneFound(h: nat, cover: seq<nat>, m: nat)
    requires cover == [m] && Pow2(h) <= m < Pow2(h + 1)
    ensures TreeNodes(h, cover) && QosServer.FoundAll(h, cover, {}) == [m - 1]
  {
    hide HeightOf, Pow2;
    LeafHeight(h, m);
    assert cover[..0] == [];
    VisitUnfold(m, HeightOf(h, m), {});
  }

  lemma ClimbNothing(q: nat)
    ensures Climb(q, 0) == q
  {
  }

  lemma NotThere(entries: map<Tag, Entry>, token: Token, leaf: int)
    requires Tag(token, leaf) !in entries
    ensures |Lookup(entries, token, [leaf])| == 0 && Absent(entries, token, [leaf]) == 1
  {
    assert Lookup(entries, token, [leaf]) == map[];
    assert Absent(entries, token, []) == 0;
  }

  /** The second keyword is below the first and its second insert raises its search
      counter, whichever of the two keys is the smaller. */
  lemma TwoKeys(a: int, b: int)
    requires a != b
    ensures Used(Leaf, a) == Counters(0, 0)
    ensures var one := Counted(Leaf, a); var two := Counted(one, b); var three := Counted(two, b);
            && Used(one, b) == Counters(0, 0) && Used(two, b) == Counters(0, 1)
            && Before(three, b) == Just(Counters(1, 0))
  {
    var none, low := Counters(0, 0), Node(Leaf, b, Counters(0, 0), Leaf);
    var one := Node(Leaf, a, none, Leaf);
    assert Counted(Leaf, a) == one;
    assert Before(one, b) == Nothing;
    var two := if b < a then Node(low, a, none, Leaf) else Node(Leaf, a, none, low);
    assert Balance(two) == if b < a then 1 else -1;
    assert AvlTree.Insert(one, b, none) == two;
    assert Before(two, b) == Just(none);
    assert IncrementAw(two, b) == if b < a then two.(left := low.(value := Counters(1, 0)))
                                  else two.(right := low.(value := Counters(1, 0)));
  }

  const ThreeInserts := [Put("a", 1), Put("b", 2), Put("b", 3)]

  /** What a search for the second keyword owes after the three inserts. */
  lemma OwedAfterThree()
    ensures var sp := After(ThreeInserts);
            "b" in sp.ids && "b" in sp.dead && LiveIds(sp.ids["b"], sp.dead["b"]) == [2, 3]
  {
    var one := After(ThreeInserts[..1]);
    AfterStep(ThreeInserts, 0);
    AfterStep(ThreeInserts, 1);
    AfterStep(ThreeInserts, 2);
    assert ThreeInserts[..3] == ThreeInserts && ThreeInserts[..0] == [];
    assert [2, 3][..1] == [2] && [2][..0] == [];
    assert LiveIds([2], {}) == [2];
  }

  /** After three inserts, two of them of a keyword below the root, a search for it
      finds nothing and one entry is reported missing; two ids were owed. */
  method Miscounted(N: nat, a: int, b: int) returns (ids: seq<int>, missing: nat)
    requires N >= 2 && a != b
    ensures ids == [] && missing == 1
    ensures var sp := After(ThreeInserts);
            "b" in sp.ids && "b" in sp.dead && LiveIds(sp.ids["b"], sp.dead["b"]) == [2, 3]
  {
    hide *;
    OwedAfterThree();
    TwoKeys(a, b);
    var server := new Server(N);
    var t := Insert(server, Leaf, a, "a", 1);
    t := Insert(server, t, b, "b", 2);
    t := Insert(server, t, b, "b", 3);
    OneLeaf(server.h);
    NotThere(server.entries, Token("b", 1), Pow2(server.h) - 1);
    t, ids, missing := Search(server, t, b, "b");
  }

  // ----- one keyword alone -----

  /** The tree after n inserts of its only keyword. */
  function Alone(key: int, n: nat): Tree<Counters> {
    if n == 0 then Leaf else Counted(Alone(key, n - 1), key)
  }

  /** At the root every insert counts one position. */
  lemma {:induction false} AloneCounts(key: int, n: nat)
    requires n >= 1
    ensures Alone(key, n) == Node(Leaf, key, Counters(0, n - 1), Leaf)
    ensures Before(Alone(key, n), key) == Just(Counters(0, n - 1))
  {
    if n > 1 { AloneCounts(key, n - 1); }
  }

  lemma AloneUses(key: int, n: nat)
    ensures Used(Alone(key, n), key) == Counters(0, n)
  {
    if n >= 1 { AloneCounts(key, n); }
  }

  ghost predicate AtLeaf(entries: map<Tag, Entry>, h: nat, keyword: string, i: nat, id: int) {
    var tag := Tag(Token(keyword, 0), Pow2(h) - 1 + i);
    tag in entries && entries[tag] == Entry(keyword, id)
  }

  lemma AtLeafStep(entries: map<Tag, Entry>, h: nat, keyword: string, n: nat, id: int, i: nat, other: int)
    ensures var after := entries[Tag(Token(keyword, 0), Pow2(h) + n - 1) := Entry(keyword, id)];
            && AtLeaf(after, h, keyword, n, id)
            && (i != n && AtLeaf(entries, h, keyword, i, other) ==> AtLeaf(after, h, keyword, i, other))
  {
  }

  /** Inserts of one keyword alone put their ids at the leaves, one after another. */
  method RootInserts(N: nat, key: int, keyword: string, ids: seq<int>) returns (server: Server, t: Tree<Counters>)
    requires N >= 1 && |ids| <= Pow2(CeilLog2(N))
    ensures |ids| >= 1 ==> Before(t, key) == Just(Counters(0, |ids| - 1))
    ensures forall leaf :: 0 <= leaf - (Pow2(CeilLog2(N)) - 1) < |ids| ==>
              && Tag(Token(keyword, 0), leaf) in server.entries
              && server.entries[Tag(Token(keyword, 0), leaf)] == Entry(keyword, ids[leaf - (Pow2(CeilLog2(N)) - 1)])
  {
    hide Counted, Before, Used, Pow2, CeilLog2, AtLeaf;
    server := new Server(N);
    t := Leaf;
    for n := 0 to |ids|
      invariant fresh(server) && server.h == CeilLog2(N) && t == Alone(key, n)
      invariant forall i: nat :: i < n ==> AtLeaf(server.entries, server.h, keyword, i, ids[i])
    {
      AloneUses(key, n);
      ghost var before := server.entries;
      t := Insert(server, t, key, keyword, ids[n]);
      forall i: nat | i < n + 1 ensures AtLeaf(server.entries, server.h, keyword, i, ids[i]) {
        AtLeafStep(before, server.h, keyword, n, ids[n], i, ids[i]);
      }
    }
    if |ids| >= 1 { AloneCounts(key, |ids|); }
    AtLeavesMeans(server.entries, CeilLog2(N), keyword, ids);
  }

  lemma AtLeavesMeans(entries: map<Tag, Entry>, h: nat, keyword: string, ids: seq<int>)
    requires forall i: nat :: i < |ids| ==> AtLeaf(entries, h, keyword, i, ids[i])
    ensures forall leaf :: 0 <= leaf - (Pow2(h) - 1) < |ids| ==>
              && Tag(Token(keyword, 0), leaf) in entries
              && entries[Tag(Token(keyword, 0), leaf)] == Entry(keyword, ids[leaf - (Pow2(h) - 1)])
  {
    forall leaf | 0 <= leaf - (Pow2(h) - 1) < |ids|
      ensures Tag(Token(keyword, 0), leaf) in entries
      ensures entries[Tag(Token(keyword, 0), leaf)] == Entry(keyword, ids[leaf - (Pow2(h) - 1)]) {
      var i: nat := leaf - (Pow2(h) - 1);
      assert AtLeaf(entries, h, keyword, i, ids[i]);
    }
  }
}

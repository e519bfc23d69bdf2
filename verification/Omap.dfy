/** The oblivious map: a balanced tree in the Path ORAM, reached through the
    id and position of its root, with every operation bracketed by start and
    finilize. */
module Omap {
  import opened Powers
  import opened AvlTree
  import opened AvlReach
  import opened OramState
  import opened AvlStore
  import opened NodeOram
  import opened AvlOram
  import opened AvlExposed
  import opened AvlSetup

  lemma {:induction false} NothingModified(t: Tree<string>, cached: set<int>)
    ensures Closed(t, cached, {})
  {
    if t.Node? {
      NothingModified(t.left, cached);
      NothingModified(t.right, cached);
    }
  }

  lemma {:induction false} RepKeys(live: map<int, Node>, id: int, pos: int, t: Tree<string>)
    requires Rep(live, id, pos, t)
    ensures Keys(t) <= live.Keys
    decreases t
  {
    if t.Node? {
      RepKeys(live, live[id].value.leftID, live[id].value.leftPos, t.left);
      RepKeys(live, live[id].value.rightID, live[id].value.rightPos, t.right);
    }
  }

  /** What an insertion into the whole tree leaves for finilize. */
  lemma {:induction false} InsertedWhole(v: View, v': View, id: int, pos: int, t: Tree<string>, key: int, value: string)
    requires Avl(t) && v.live.Keys == Keys(t) && Steps(v, v', Keys(t) + {key})
    requires Holds(v', id, pos, AvlTree.Insert(t, key, value))
    ensures v'.live.Keys == Keys(AvlTree.Insert(t, key, value)) && Avl(AvlTree.Insert(t, key, value))
    ensures Contents(AvlTree.Insert(t, key, value)) == Contents(t)[key := value]
  {
    hide AvlTree.Insert;
    InsertMap(t, key, value);
    InsertBalanced(t, key, value);
    RepKeys(v'.live, id, pos, AvlTree.Insert(t, key, value));
  }

  class Map {
    const oram: Store
    const treeHandler: Handler
    var rootKey: int
    var rootPos: int
    ghost var tree: Tree<string>

    ghost predicate Valid()
      reads this, oram
    {
      && treeHandler.oram == oram && oram.Rest()
      && Rep(oram.live, rootKey, rootPos, tree) && oram.live.Keys == Keys(tree)
      && Avl(tree) && oram.maxHeight == oram.depth + 3
    }

    /** The map this object stands for. */
    ghost function Entries(): map<int, string>
      reads this
    {
      Contents(tree)
    }

    constructor (maxSize: nat)
      requires maxSize / Z >= 1
      ensures Valid() && fresh(oram) && Entries() == map[] && tree == Leaf
      ensures oram.maxHeight == FloorLog2(maxSize / Z) + 3
    {
      hide FloorLog2, StoreInv, Pow2;
      var store := new Store(maxSize);
      oram := store;
      treeHandler := new Handler(store);
      rootKey, rootPos, tree := 0, 0, Leaf;
      new;
      HeightBound(oram.depth);
    }

    ghost predicate Working()
      reads this, oram
    {
      treeHandler.oram == oram && oram.Busy() && Holds(oram.Now(), rootKey, rootPos, tree)
      && oram.live.Keys == Keys(tree) && Avl(tree) && oram.maxHeight == oram.depth + 3
    }

    /** Relinking cannot lose the tree when these nodes were touched. */
    ghost predicate Safe(touched: set<int>)
      reads this
    {
      oram.depth == 0 || !Exposed(touched, oram.maxHeight, tree)
    }

    /** What an operation leaves that came to layout v: some outcome of relinking it,
        which is valid if and only if it leads to the tree. That it would was sure
        before the leaves were drawn if and only if the touched nodes are safe. */
    ghost predicate Settled(v: View)
      reads this, oram
    {
      && Outcome(v, oram.live, oram.maxHeight, Pow2(oram.depth)) && Reached(v.live, rootKey, tree)
      && (Valid() <==> Reached(oram.live, rootKey, tree))
      && (Surely(v, oram.maxHeight, Pow2(oram.depth), rootKey, tree) <==> Safe(v.modified))
      && (Safe(v.modified) ==> Valid())
    }

    method StartOperation()
      requires Valid()
      modifies oram
      ensures Working() && oram.Now() == old(oram.Now()) && oram.modified == {}
    {
      hide Store.Busy, StoreInv;
      oram.Start();
      NothingModified(tree, oram.cache.Keys);
    }

    method FinishOperation(find: bool) returns (ghost v: View)
      requires Working()
      modifies this`rootPos, oram
      ensures v.live == old(oram.live) && v.modified == old(oram.modified) && Settled(v)
    {
      hide Store.Busy, Store.Rest, Surely, Exposed, Outcome, Rep, Closed;
      RepReached(oram.live, rootKey, rootPos, tree);
      rootPos, v := oram.Finalize(find, rootKey, rootPos, tree);
      RepReached(oram.live, rootKey, rootPos, tree);
    }

    /** find: the value stored under the key, or the empty string. */
    method Find(key: int) returns (value: string, ghost v: View)
      requires Valid()
      modifies this`rootPos, oram
      ensures value == if key in Entries() then Entries()[key] else ""
      ensures tree == old(tree) && v.live == old(oram.live) && v.modified == Seen(tree, key) && Settled(v)
      ensures Safe(v.modified) <==>
              oram.depth == 0 || Height(tree) <= oram.maxHeight || LowestSeen(tree, key) > oram.maxHeight
    {
      hide Store.Busy, Store.Rest, Holds, Rep, Contents, Settled, Avl, Keys, Exposed, Height, LowestSeen, Seen;
      AvlIsOrdered(tree);
      SearchExposes(tree, key, oram.maxHeight);
      if rootKey == 0 {
        v := View(oram.live, oram.cache.Keys, {});
        NothingToLose(v, key);
        return "", v;
      }
      StartOperation();
      var found;
      found, value := treeHandler.Search(rootKey, rootPos, key, tree);
      value := if found then value else "";
      v := FinishOperation(true);
    }

    /** insert: the map changes at the key only. */
    method Insert(key: int, value: string) returns (ghost v: View)
      requires Valid() && key != 0
      modifies this, oram
      ensures Entries() == old(Entries())[key := value]
      ensures tree == AvlTree.Insert(old(tree), key, value)
      ensures v.modified == Touched(old(tree), key, value) && Settled(v)
      ensures key !in old(Entries()) ==> (Safe(v.modified) <==> oram.depth == 0 || Height(tree) <= oram.maxHeight)
    {
      hide Store.Busy, Store.Rest, Holds, Rep, Contents, Keys, AvlTree.Insert, Height, Avl, Settled, Touched, Exposed;
      ContentsKeys(tree);
      if key !in Keys(tree) { NewKeyExposes(tree, key, value, oram.maxHeight); }
      StartOperation();
      ghost var v0 := oram.Now();
      rootKey, rootPos := treeHandler.Insert(rootKey, rootPos, key, value, tree);
      InsertedWhole(v0, oram.Now(), rootKey, rootPos, tree, key, value);
      tree := AvlTree.Insert(tree, key, value);
      v := FinishOperation(false);
    }

    /** setupInsert: the sorted pairs become the entries of an empty map, in a tree
        that is low enough for at most one pair per slot of the store. */
    method SetupInsert(pairs: seq<Pair>)
      requires Valid() && tree == Leaf && oram.cache == map[]
      requires Sorted(pairs) && forall i :: 0 <= i < |pairs| ==> pairs[i].0 != 0
      modifies this, oram
      ensures Valid()
      ensures |pairs| <= Z * (Pow2(oram.depth + 1) - 1) ==> Height(tree) <= oram.maxHeight
      ensures forall i :: 0 <= i < |pairs| ==> pairs[i].0 in Entries() && Entries()[pairs[i].0] == pairs[i].1
      ensures forall k :: k in Entries() ==> exists i :: 0 <= i < |pairs| && pairs[i].0 == k
    {
      hide StoreInv, LiveOf, Bst, Rep, Contents, Built, Avl, Height, FloorLog2, Ready, Keys;
      EmptyKeys(oram.live, tree);
      var setupNodes := MakeNodes(oram.depth, pairs);
      ghost var s0 := setupNodes[..];
      NodesReady(s0, pairs);
      var height, pos, key := SortedArrayToBst(setupNodes, 0, setupNodes.Length - 1, oram.depth);
      ghost var s := setupNodes[..];
      SamePairs(s0, s, 0, |pairs|);
      ReadyNodes(s, oram.depth);
      assert pairs[0..|pairs|] == pairs;
      oram.SetupInsert(setupNodes[..]);
      rootKey, rootPos := key, pos;
      tree := Bst(pairs);
      SetupTree(pairs, oram.depth);
      SetupKeys(s);
    }

    /** batchSearch: together, what single searches for the keys would find;
        keys that are not stored leave no trace in the result. */
    method BatchSearch(keys: seq<int>) returns (results: seq<string>, ghost v: View)
      requires Valid()
      modifies this`rootPos, oram
      ensures multiset(results) == FoundAll(Entries(), keys)
      ensures tree == old(tree) && v.live == old(oram.live) && v.modified == SeenAll(tree, keys) && Settled(v)
    {
      hide Store.Busy, Store.Rest, Holds, Rep, Contents, FoundAll, Settled, SeenAll;
      StartOperation();
      results := treeHandler.BatchSearch(rootKey, rootPos, keys, tree);
      v := FinishOperation(true);
    }

    lemma LowIsValid(v: View)
      requires Settled(v) && Height(tree) <= oram.maxHeight
      ensures Valid()
    {
      LowIsSafe(v.modified, oram.maxHeight, tree);
    }

    lemma NothingToLose(v: View, key: int)
      requires Valid() && rootKey == 0 && v == View(oram.live, oram.cache.Keys, {})
      ensures Settled(v) && Contents(tree) == map[] && Seen(tree, key) == {}
    {
    }
  }

  lemma AvlIsOrdered(t: Tree<string>)
    requires Avl(t)
    ensures Ordered(t) && (t.Leaf? ==> Height(t) == 0)
  {
  }

  lemma RepReached(live: map<int, Node>, id: int, pos: int, t: Tree<string>)
    ensures Rep(live, id, pos, t) ==> Reached(live, id, t)
  {
  }

  // ----- setup -----

  method MakeNodes(depth: nat, pairs: seq<Pair>) returns (nodes: array<Node>)
    ensures fresh(nodes) && nodes.Length == |pairs|
    ensures forall i :: 0 <= i < |pairs| ==> nodes[i].value.key == pairs[i].0 && nodes[i].value.value == pairs[i].1
  {
    nodes := new Node[|pairs|](_ => NewNode(0, "", 0));
    for i := 0 to |pairs|
      invariant forall j :: 0 <= j < i ==> nodes[j].value.key == pairs[j].0 && nodes[j].value.value == pairs[j].1
    {
      var leaf := RandomPath(depth);
      nodes[i] := NewNode(pairs[i].0, pairs[i].1, leaf);
    }
  }

  lemma NodesReady(s: seq<Node>, pairs: seq<Pair>)
    requires |s| == |pairs| && Sorted(pairs) && forall i :: 0 <= i < |pairs| ==> pairs[i].0 != 0
    requires forall i :: 0 <= i < |pairs| ==> s[i].value.key == pairs[i].0 && s[i].value.value == pairs[i].1
    ensures Pairs(s) == pairs && Ready(s)
  {
    assert Pairs(s) == pairs;
  }

  lemma SamePairs(s: seq<Node>, s': seq<Node>, lo: int, hi: int)
    requires Built(s, s', lo, hi)
    ensures Pairs(s') == Pairs(s)
  {
  }

  lemma ReadyNodes(s: seq<Node>, depth: nat)
    requires Ready(s) && Placed(s, depth, 0, |s|)
    ensures DistinctKeys(s) && forall i :: 0 <= i < |s| ==> s[i].value.key != 0 && 0 <= s[i].pos < Pow2(depth)
  {
    ReadyDistinct(s);
  }

  lemma EmptyKeys(live: map<int, Node>, t: Tree<string>)
    requires live.Keys == Keys(t) && t.Leaf?
    ensures live == map[]
  {
  }

  /** The tree that setup builds: balanced, low enough, and exactly the pairs. */
  lemma SetupTree(pairs: seq<Pair>, depth: nat)
    requires Sorted(pairs)
    ensures Avl(Bst(pairs))
    ensures |pairs| <= Z * (Pow2(depth + 1) - 1) ==> Height(Bst(pairs)) <= depth + 3
    ensures forall i :: 0 <= i < |pairs| ==>
      pairs[i].0 in Contents(Bst(pairs)) && Contents(Bst(pairs))[pairs[i].0] == pairs[i].1
    ensures forall k :: k in Contents(Bst(pairs)) ==> exists i :: 0 <= i < |pairs| && pairs[i].0 == k
  {
    hide Bst, Contents, Height, Keys, FloorLog2;
    BstShape(pairs);
    BstOrdered(pairs);
    HeightBound(depth);
    if |pairs| <= Z * (Pow2(depth + 1) - 1) { BstFits(pairs, Z * (Pow2(depth + 1) - 1)); }
    ContentsKeys(Bst(pairs));
    forall i | 0 <= i < |pairs|
      ensures pairs[i].0 in Contents(Bst(pairs)) && Contents(Bst(pairs))[pairs[i].0] == pairs[i].1 {
      BstContents(pairs, i);
    }
    forall k | k in Contents(Bst(pairs)) ensures exists i :: 0 <= i < |pairs| && pairs[i].0 == k { BstKeys(pairs, k); }
  }

  lemma SetupKeys(s: seq<Node>)
    requires Ready(s)
    ensures LiveOf(s).Keys == Keys(Bst(Pairs(s)))
  {
    hide Bst, LiveOf, Keys;
    ReadyDistinct(s);
    forall k ensures k in LiveOf(s) <==> k in Keys(Bst(Pairs(s))) {
      BstKeys(Pairs(s), k);
      if k in LiveOf(s) {
        LiveFrom(s, k);
        var i :| 0 <= i < |s| && s[i].value.key == k;
        assert Pairs(s)[i].0 == k;
      }
      if k in Keys(Bst(Pairs(s))) {
        var i :| 0 <= i < |s| && Pairs(s)[i].0 == k;
        LiveAt(s, i);
      }
    }
  }

  lemma FloorLog2Is(n: nat, k: nat)
    requires n >= 1 && Pow2(k) <= n < Pow2(k + 1)
    ensures FloorLog2(n) == k
  {
    var j := FloorLog2(n);
    if j < k { Pow2Monotone(j + 1, k); }
    if k < j { Pow2Monotone(k + 1, j); }
  }

  /** maxHeightOfAVLTree is the depth of the bucket tree plus three. */
  lemma HeightBound(depth: nat)
    ensures Z * (Pow2(depth + 1) - 1) >= 1
    ensures FloorLog2(Z * (Pow2(depth + 1) - 1)) + 1 == depth + 3
  {
    assert Pow2(depth + 3) == 2 * Pow2(depth + 2) == 4 * Pow2(depth + 1) == 8 * Pow2(depth);
    assert Pow2(depth) >= 1;
    FloorLog2Is(Z * (Pow2(depth + 1) - 1), depth + 2);
  }

  // ----- whole runs -----

  datatype Call = Put(key: int, value: string) | Get(key: int)

  /** The dictionary after a run, as any map would have it. */
  ghost function Dictionary(calls: seq<Call>): map<int, string> {
    if calls == [] then map[]
    else
      var before := Dictionary(calls[..|calls| - 1]);
      match calls[|calls| - 1]
      case Put(k, v) => before[k := v]
      case Get(_) => before
  }

  lemma RunStep(calls: seq<Call>, k: nat)
    requires k < |calls|
    ensures Dictionary(calls[..k + 1]) ==
            if calls[k].Put? then Dictionary(calls[..k])[calls[k].key := calls[k].value] else Dictionary(calls[..k])
  {
    assert calls[..k + 1][..k] == calls[..k];
  }

  lemma {:induction false} DictionaryGrows(calls: seq<Call>, k: nat)
    requires k <= |calls|
    ensures Dictionary(calls[..k]).Keys <= Dictionary(calls).Keys
    decreases |calls|
  {
    if k < |calls| {
      DictionaryGrows(calls[..|calls| - 1], k);
      assert calls[..|calls| - 1][..k] == calls[..k];
    } else {
      assert calls[..k] == calls;
    }
  }

  lemma RunStart()
    ensures Dictionary([]) == map[]
  {
  }

  /** A tree that stands for few enough keys is low enough. */
  lemma FewKeysLow(t: Tree<string>, m: map<int, string>, bound: nat)
    requires Avl(t) && Contents(t) == m && |m.Keys| < MinSize(bound + 1)
    ensures Height(t) <= bound
  {
    ContentsKeys(t);
    SizeIsCount(t);
    LowBySize(t, bound);
  }

  lemma CountSubset(a: set<int>, b: set<int>)
    requires a <= b
    ensures |a| <= |b|
  {
    assert b == a + (b - a);
  }

  lemma {:induction false} DictionaryMeans(calls: seq<Call>, k: nat, key: int)
    requires k <= |calls|
    ensures key in Dictionary(calls[..k]) ==> exists j :: LastPut(calls, k, key, j)
    ensures forall j :: LastPut(calls, k, key, j) ==>
              key in Dictionary(calls[..k]) && Dictionary(calls[..k])[key] == calls[j].value
  {
    hide Dictionary;
    if k == 0 {
      assert calls[..0] == [];
      RunStart();
    } else {
      DictionaryMeans(calls, k - 1, key);
      RunStep(calls, k - 1);
      if calls[k - 1].Put? && calls[k - 1].key == key {
        assert LastPut(calls, k, key, k - 1);
      } else {
        forall j ensures LastPut(calls, k, key, j) <==> LastPut(calls, k - 1, key, j) {
        }
        if key in Dictionary(calls[..k - 1]) {
          var j :| LastPut(calls, k - 1, key, j);
          assert LastPut(calls, k, key, j);
        }
      }
    }
  }

  /** Call j is the last insertion under the key before call k. */
  ghost predicate LastPut(calls: seq<Call>, k: nat, key: int, j: int)
    requires k <= |calls|
  {
    && 0 <= j < k && calls[j].Put? && calls[j].key == key
    && forall m :: j < m < k ==> !(calls[m].Put? && calls[m].key == key)
  }

  lemma {:induction false} DictionaryKeys(calls: seq<Call>)
    ensures Dictionary(calls).Keys == set c | c in calls && c.Put? :: c.key
  {
    if calls != [] {
      var n := |calls| - 1;
      DictionaryKeys(calls[..n]);
      assert calls == calls[..n] + [calls[n]];
    }
  }

  /** Every find of every run answers with the value of the last insertion under its
      key before it, or the empty string if there is none, as long as the keys ever
      inserted are too few for an over-high tree. */
  method Run(maxSize: nat, calls: seq<Call>) returns (answers: seq<string>)
    requires maxSize / Z >= 1
    requires forall i :: 0 <= i < |calls| ==> calls[i].key != 0
    requires |set c | c in calls && c.Put? :: c.key| < MinSize(FloorLog2(maxSize / Z) + 4)
    ensures |answers| == |calls|
    ensures forall i, j :: 0 <= j < i < |calls| && calls[i].Get? && calls[j].Put? && calls[j].key == calls[i].key ==>
              (forall m :: j < m < i ==> !(calls[m].Put? && calls[m].key == calls[i].key)) ==>
                answers[i] == calls[j].value
    ensures forall i :: 0 <= i < |calls| && calls[i].Get? ==>
              (forall j :: 0 <= j < i ==> !(calls[j].Put? && calls[j].key == calls[i].key)) ==> answers[i] == ""
  {
    hide Dictionary, MinSize, FloorLog2;
    DictionaryKeys(calls);
    answers := Serve(maxSize, calls);
    forall i | 0 <= i < |calls| && calls[i].Get?
      ensures forall j :: LastPut(calls, i, calls[i].key, j) ==> answers[i] == calls[j].value
      ensures (forall j :: 0 <= j < i ==> !(calls[j].Put? && calls[j].key == calls[i].key)) ==> answers[i] == "" {
      DictionaryMeans(calls, i, calls[i].key);
    }
    forall i, j | 0 <= j < i < |calls| && calls[i].Get? && calls[j].Put? && calls[j].key == calls[i].key
        && (forall m :: j < m < i ==> !(calls[m].Put? && calls[m].key == calls[i].key))
      ensures answers[i] == calls[j].value {
      assert LastPut(calls, i, calls[i].key, j);
    }
  }

  /** The run against the dictionary. */
  method Serve(maxSize: nat, calls: seq<Call>) returns (answers: seq<string>)
    requires maxSize / Z >= 1
    requires forall i :: 0 <= i < |calls| ==> calls[i].key != 0
    requires |Dictionary(calls).Keys| < MinSize(FloorLog2(maxSize / Z) + 4)
    ensures |answers| == |calls|
    ensures forall i :: 0 <= i < |calls| && calls[i].Get? ==>
              var d := Dictionary(calls[..i]); answers[i] == if calls[i].key in d then d[calls[i].key] else ""
  {
    hide Store.Rest, Rep, Dictionary, AvlTree.Insert, MinSize, FloorLog2, Contents, Height, Avl, Keys,
      Map.Settled, Seen, Touched;
    answers := [];
    assert calls[..0] == [];
    RunStart();
    var omap := new Map(maxSize);
    for k := 0 to |calls|
      invariant |answers| == k && fresh(omap) && fresh(omap.oram) && omap.Valid()
      invariant omap.Entries() == Dictionary(calls[..k])
      invariant omap.oram.maxHeight == FloorLog2(maxSize / Z) + 3
      invariant forall i :: 0 <= i < k && calls[i].Get? ==>
                  var d := Dictionary(calls[..i]); answers[i] == if calls[i].key in d then d[calls[i].key] else ""
    {
      RunStep(calls, k);
      DictionaryGrows(calls, k + 1);
      CountSubset(Dictionary(calls[..k + 1]).Keys, Dictionary(calls).Keys);
      match calls[k]
      case Put(key, value) =>
        InsertAvl(omap.tree, key, value);
        FewKeysLow(AvlTree.Insert(omap.tree, key, value), Dictionary(calls[..k + 1]), FloorLog2(maxSize / Z) + 3);
        ghost var v := omap.Insert(key, value);
        omap.LowIsValid(v);
        answers := answers + [""];
      case Get(key) =>
        FewKeysLow(omap.tree, Dictionary(calls[..k + 1]), FloorLog2(maxSize / Z) + 3);
        var r, v := omap.Find(key);
        omap.LowIsValid(v);
        answers := answers + [r];
    }
  }

  lemma InsertAvl(t: Tree<string>, key: int, value: string)
    requires Avl(t)
    ensures Avl(AvlTree.Insert(t, key, value))
    ensures Contents(AvlTree.Insert(t, key, value)) == Contents(t)[key := value]
  {
    InsertMap(t, key, value);
    InsertBalanced(t, key, value);
  }

  /** A map within its capacity, counted in keys, stays within the height that
      finilize relinks exactly when the capacity is below the sparsest higher tree. */
  lemma CapacityFits(maxSize: nat)
    requires maxSize / Z >= 1
    ensures (forall pairs: seq<Pair> ::
               |KeysOf(pairs)| <= maxSize ==> Height(InsertAll(Leaf, pairs)) <= FloorLog2(maxSize / Z) + 3)
      <==> maxSize < MinSize(FloorLog2(maxSize / Z) + 4)
  {
    RunsFit(maxSize, FloorLog2(maxSize / Z) + 3);
  }

  lemma LogOf16()
    ensures FloorLog2(16) == 4
  {
    assert Pow2(4) == 2 * Pow2(3) == 4 * Pow2(2) == 8 * Pow2(1) == 16 * Pow2(0);
    FloorLog2Is(16, 4);
  }

  /** A map for 64 keys can outgrow the bound with 54 of them. */
  lemma CapacityOf64() returns (pairs: seq<Pair>)
    ensures FloorLog2(64 / Z) + 3 == 7
    ensures |pairs| == 54 == |KeysOf(pairs)| && Height(InsertAll(Leaf, pairs)) == 8
  {
    hide MinSize, FloorLog2, InsertAll, Height, KeysOf;
    SmallMinSizes();
    LogOf16();
    SparsestIsAvl(8, 1);
    pairs := AvlReachable(Sparsest(8, 1));
  }

  /** Such a run comes to an insertion after which relinking can lose the tree. */
  lemma ExposedOf64() returns (pairs: seq<Pair>, k: nat)
    ensures k < |pairs| == |KeysOf(pairs)| == 54
    ensures var t, p := InsertAll(Leaf, pairs[..k]), pairs[k];
            && Avl(t) && Height(t) <= 7 && InsertAll(Leaf, pairs[..k + 1]) == AvlTree.Insert(t, p.0, p.1)
            && Exposed(Touched(t, p.0, p.1), 7, AvlTree.Insert(t, p.0, p.1))
  {
    hide *;
    pairs := CapacityOf64();
    k := OutgrownIsExposed(pairs, 7);
  }
}

/** The Path ORAM below the oblivious map: nodes carry their own positions,
    every node that an operation touched moves to a random path when the
    operation ends, and the links to it are rewritten. */
module NodeOram {
  import opened Powers
  import opened HeapTree
  import opened Collections
  import opened AvlTree
  import opened OramState
  import opened OramSetup
  import opened AvlStore

  ghost function Bodies(live: map<int, Node>): map<int, Links> {
    map k | k in live :: live[k].value
  }

  ghost function Positions(live: map<int, Node>): int -> int {
    k => if k in live then live[k].pos else 0
  }

  /** Cache and closed buckets hold the current version of every node once. */
  ghost predicate StoreInv(depth: nat, buckets: seq<Bucket<int, Links>>, cache: map<int, Node>, live: map<int, Node>,
                           open: set<int>) {
    Inv(depth, Positions(live), buckets, cache, Bodies(live), open) && 0 !in live
  }

  lemma CacheIsLive(depth: nat, buckets: seq<Bucket<int, Links>>, cache: map<int, Node>, live: map<int, Node>,
                    open: set<int>)
    requires StoreInv(depth, buckets, cache, live, open)
    ensures |buckets| == Pow2(depth + 1) - 1
    ensures forall k :: k in cache ==> k in live && cache[k] == live[k]
    ensures forall k :: k in cache ==> 0 <= cache[k].pos < Pow2(depth)
  {
  }

  lemma Found(depth: nat, buckets: seq<Bucket<int, Links>>, cache: map<int, Node>, live: map<int, Node>, open: set<int>,
              id: int)
    requires StoreInv(depth, buckets, cache, live, open) && id in live && PathOpen(depth, Positions(live), id, open)
    ensures id in cache
  {
    StashDecides(depth, Positions(live), buckets, cache, Bodies(live), open, id);
  }

  /** A cached node may be changed, and a new one added. */
  lemma AssignKeeps(depth: nat, buckets: seq<Bucket<int, Links>>, cache: map<int, Node>, live: map<int, Node>,
                    open: set<int>, id: int, n: Node)
    requires StoreInv(depth, buckets, cache, live, open) && (id in cache || id !in live)
    requires 0 <= n.pos < Pow2(depth) && id != 0
    ensures StoreInv(depth, buckets, cache[id := n], live[id := n], open)
  {
    hide Inv;
    SetKeeps(depth, Positions(live), Positions(live[id := n]), buckets, cache, Bodies(live), open, id, n.value);
    assert Bodies(live[id := n]) == Bodies(live)[id := n.value];
    assert n == Box(n.value, n.pos);
  }

  lemma PositionInRange(depth: nat, buckets: seq<Bucket<int, Links>>, cache: map<int, Node>, live: map<int, Node>,
                        open: set<int>, id: int)
    requires StoreInv(depth, buckets, cache, live, open) && id in live
    ensures 0 <= live[id].pos < Pow2(depth)
  {
    assert Stored(buckets, cache, open, id);
    if id !in cache {
      var n :| 0 <= n < |buckets| && n !in open && Has(buckets[n], id);
      assert BucketOk(depth, Positions(live), buckets[n], cache, Bodies(live), n);
    }
  }

  // ----- setup -----

  /** The nodes of a list, found by key. */
  ghost function LiveOf(s: seq<Node>): map<int, Node> {
    if s == [] then map[] else LiveOf(s[..|s| - 1])[s[|s| - 1].value.key := s[|s| - 1]]
  }

  ghost predicate DistinctKeys(s: seq<Node>) {
    forall i, j :: 0 <= i < j < |s| ==> s[i].value.key != s[j].value.key
  }

  lemma {:induction false} LiveAt(s: seq<Node>, i: nat)
    requires DistinctKeys(s) && i < |s|
    ensures s[i].value.key in LiveOf(s) && LiveOf(s)[s[i].value.key] == s[i]
  {
    if i < |s| - 1 { LiveAt(s[..|s| - 1], i); }
  }

  lemma {:induction false} LiveFrom(s: seq<Node>, k: int)
    requires DistinctKeys(s) && k in LiveOf(s)
    ensures exists i :: 0 <= i < |s| && s[i].value.key == k && LiveOf(s)[k] == s[i]
  {
    if k == s[|s| - 1].value.key {
      assert LiveOf(s)[k] == s[|s| - 1];
    } else {
      LiveFrom(s[..|s| - 1], k);
      var i :| 0 <= i < |s| - 1 && s[..|s| - 1][i].value.key == k && LiveOf(s[..|s| - 1])[k] == s[..|s| - 1][i];
      assert s[i].value.key == k;
    }
  }

  function Blocks(s: seq<Node>): seq<Block<int, Links>> {
    seq(|s|, i requires 0 <= i < |s| => Block(s[i].value.key, s[i]))
  }

  lemma {:induction false} BlocksBodies(s: seq<Node>)
    ensures AllOf(Blocks(s)) == Bodies(LiveOf(s))
  {
    if s != [] {
      BlocksBodies(s[..|s| - 1]);
      assert Blocks(s)[..|s| - 1] == Blocks(s[..|s| - 1]);
    }
  }

  ghost function LeafSet(leafList: seq<int>): set<int> {
    set x | x in leafList
  }

  /** An empty store suits any assignment of positions. */
  lemma EmptyAnyPosition(depth: nat, live: map<int, Node>, position: int -> int, buckets: seq<Bucket<int, Links>>)
    requires live == map[] && Inv(depth, Positions(live), buckets, map[], Bodies(live), {})
    ensures Inv(depth, position, buckets, map[], map[], {})
  {
    hide OnPath;
    EmptyStore(depth, Positions(live), buckets);
  }

  method RandomPath(depth: nat) returns (leaf: int)
    ensures 0 <= leaf < Pow2(depth)
  {
    leaf := *;
    if !(0 <= leaf < Pow2(depth)) { leaf := 0; }
  }

  class Store {
    const depth: nat
    const maxHeight: nat
    var buckets: seq<Bucket<int, Links>>
    var cache: map<int, Node>
    var leafList: seq<int>
    var readView: seq<int>
    var writeView: seq<int>
    var modified: set<int>
    var readCnt: nat
    ghost var live: map<int, Node>

    ghost predicate Opened(open: set<int>)
      reads this
    {
      StoreInv(depth, buckets, cache, live, open)
    }

    /** Between operations: no bucket is stale. */
    ghost predicate Rest()
      reads this
    {
      Opened({}) && leafList == [] && modified == {}
    }

    /** Within an operation: exactly the buckets on the paths of leafList have
        been fetched. */
    ghost predicate Busy()
      reads this
    {
      && Leaves(depth, LeafSet(leafList)) && Opened(PathsOf(depth, LeafSet(leafList)))
      && (forall n :: n in readView <==> n in PathsOf(depth, LeafSet(leafList)))
      && modified <= cache.Keys && writeView == []
    }

    ghost function Now(): View
      reads this
    {
      View(live, cache.Keys, modified)
    }

    constructor (maxSize: nat)
      requires maxSize / Z >= 1
      ensures Rest() && live == map[]
      ensures depth == FloorLog2(maxSize / Z)
      ensures maxHeight == FloorLog2(Z * (Pow2(depth + 1) - 1)) + 1
    {
      var d := FloorLog2(maxSize / Z);
      depth := d;
      assert Pow2(d + 1) >= 2;
      maxHeight := FloorLog2(Z * (Pow2(d + 1) - 1)) + 1;
      buckets := seq(Pow2(d + 1) - 1, _ => []);
      cache, leafList, readView, writeView, modified, readCnt := map[], [], [], [], {}, 0;
      live := map[];
      new;
      InitialInv(depth, Positions(map[]), buckets);
      assert Bodies(map[]) == map[];
    }

    method GetBucketOnPath(leaf: int, curDepth: nat) returns (n: int)
      requires 0 <= leaf < Pow2(depth) && curDepth <= depth
      ensures n == NodeAt(depth, leaf, depth - curDepth)
      ensures 0 <= n < Pow2(depth + 1) - 1
    {
      PathBucket(depth, leaf, depth - curDepth);
      n := GetNodeOnPath(depth, leaf, depth, curDepth);
    }

    /** Copy the nodes of one bucket into the cache unless already there. */
    method FetchBucket(n: int, ghost open: set<int>)
      requires Opened(open) && 0 <= n < |buckets| && n !in open
      modifies this`cache
      ensures Opened(open + {n}) && old(cache).Keys <= cache.Keys
    {
      hide BoxOk, OnPath;
      var bucket := buckets[n];
      ghost var before := cache;
      assert BucketOk(depth, Positions(live), bucket, cache, Bodies(live), n);
      for z := 0 to |bucket|
        invariant Fetched(before, bucket[..z], cache)
      {
        assert bucket[..z + 1] == bucket[..z] + [bucket[z]];
        assert !Has(bucket[..z], bucket[z].id);
        if bucket[z].id !in cache {
          cache := cache[bucket[z].id := bucket[z].box];
        }
        FetchedStep(before, bucket, z, cache);
      }
      assert bucket[..|bucket|] == bucket;
      FetchKeeps(depth, Positions(live), buckets, before, Bodies(live), open, n, cache);
    }

    method FetchPath(leaf: int, ghost leaves: set<int>)
      requires 0 <= leaf < Pow2(depth) && Leaves(depth, leaves) && Opened(PathsOf(depth, leaves))
      requires forall n :: n in readView <==> n in PathsOf(depth, leaves)
      modifies this`cache, this`readView, this`readCnt
      ensures Opened(PathsOf(depth, leaves + {leaf})) && old(cache).Keys <= cache.Keys
      ensures forall n :: n in readView <==> n in PathsOf(depth, leaves + {leaf})
      ensures readCnt == old(readCnt) + 1
    {
      hide StoreInv, PathsOf, NodeAt;
      readCnt := readCnt + 1;
      ghost var base := PathsOf(depth, leaves);
      ghost var open := base;
      CacheIsLive(depth, buckets, cache, live, open);
      for d := 0 to depth + 1
        invariant Opened(open) && old(cache).Keys <= cache.Keys && readCnt == old(readCnt) + 1
        invariant forall n :: n in open <==>
          n in base || exists k :: depth - d < k <= depth && n == NodeAt(depth, leaf, k)
        invariant forall n :: n in readView <==> n in open
      {
        var node := GetBucketOnPath(leaf, d);
        ghost var before := open;
        open := open + {node};
        PathNodesDistinct(depth, leaf);
        if node in readView {
          assert open == before;
          continue;
        }
        readView := readView + [node];
        FetchBucket(node, before);
      }
      PathsGrow(depth, leaves, leaf, open);
    }

    /** Fetch a path and note its leaf for the write-back. */
    method FetchListed(leaf: int)
      requires 0 <= leaf < Pow2(depth) && Busy()
      modifies this`cache, this`readView, this`readCnt, this`leafList
      ensures Busy() && leaf in leafList && old(cache).Keys <= cache.Keys && readCnt == old(readCnt) + 1
    {
      hide StoreInv, PathsOf;
      FetchPath(leaf, LeafSet(leafList));
      ghost var before := leafList;
      if leaf !in leafList { leafList := leafList + [leaf]; }
      assert LeafSet(leafList) == LeafSet(before) + {leaf};
    }

    /** Access for reading and ReadNode: a linked node is always found. */
    method ReadNode(bid: int, pos: int) returns (node: Node)
      requires Busy() && bid in live && live[bid].pos == pos
      modifies this`cache, this`readView, this`readCnt, this`leafList, this`modified
      ensures Busy() && node == live[bid] && bid in cache
      ensures old(cache).Keys <= cache.Keys && modified == old(modified) + {bid}
    {
      hide StoreInv, PathsOf;
      PositionInRange(depth, buckets, cache, live, PathsOf(depth, LeafSet(leafList)), bid);
      if bid !in cache || pos !in leafList {
        FetchListed(pos);
        PathOfListed(bid);
        Found(depth, buckets, cache, live, PathsOf(depth, LeafSet(leafList)), bid);
      }
      CacheIsLive(depth, buckets, cache, live, PathsOf(depth, LeafSet(leafList)));
      modified := modified + {bid};
      node := cache[bid].(pos := pos);
      assert cache[bid := node] == cache;
      cache := cache[bid := node];
    }

    lemma PathOfListed(bid: int)
      requires bid in live && live[bid].pos in leafList && Leaves(depth, LeafSet(leafList))
      ensures PathOpen(depth, Positions(live), bid, PathsOf(depth, LeafSet(leafList)))
    {
      var pos := live[bid].pos;
      assert pos in LeafSet(leafList);
      OpenOwnPath(depth, Positions(live), bid, LeafSet(leafList));
      assert LeafSet(leafList) + {pos} == LeafSet(leafList);
    }

    /** Throws on a null id or one that is not cached: callers show neither happens. */
    method ReadNodeFromCache(bid: int) returns (node: Node)
      requires Busy() && bid != 0 && bid in cache
      ensures bid in live && node == live[bid]
    {
      hide PathsOf, Inv;
      CacheIsLive(depth, buckets, cache, live, PathsOf(depth, LeafSet(leafList)));
      node := cache[bid];
    }

    /** A change made through a pointer to a cached node. */
    method Assign(bid: int, node: Node)
      requires Busy() && bid in cache && bid in live
      requires node.pos == live[bid].pos || 0 <= node.pos < Pow2(depth)
      modifies this`cache, this`live
      ensures Busy() && live == old(live)[bid := node] && cache.Keys == old(cache).Keys
    {
      hide Inv, PathsOf;
      CacheIsLive(depth, buckets, cache, live, PathsOf(depth, LeafSet(leafList)));
      AssignKeeps(depth, buckets, cache, live, PathsOf(depth, LeafSet(leafList)), bid, node);
      cache := cache[bid := node];
      live := live[bid := node];
    }

    /** WriteNode: a node that is not stored yet has its path fetched and enters
        the cache; one already cached is only marked. */
    method WriteNode(bid: int, node: Node) returns (pos: int)
      requires Busy() && bid != 0
      requires (bid !in live && 0 <= node.pos < Pow2(depth)) || (bid in live && bid in cache && live[bid] == node)
      modifies this
      ensures Busy() && live == old(live)[bid := node] && pos == node.pos
      ensures old(cache).Keys + {bid} <= cache.Keys && modified == old(modified) + {bid}
    {
      hide Inv, PathsOf;
      CacheIsLive(depth, buckets, cache, live, PathsOf(depth, LeafSet(leafList)));
      if bid !in cache {
        FetchListed(node.pos);
        AssignKeeps(depth, buckets, cache, live, PathsOf(depth, LeafSet(leafList)), bid, node);
        cache := cache[bid := node];
        live := live[bid := node];
      } else {
        assert live == live[bid := node];
      }
      modified := modified + {bid};
      pos := node.pos;
    }

    /** start: both view lists are cleared. */
    method Start()
      requires Rest()
      modifies this`readView, this`writeView, this`readCnt
      ensures Busy() && Now() == old(Now())
    {
      hide StoreInv;
      readView, writeView, readCnt := [], [], 0;
      NoPaths(depth);
      assert LeafSet(leafList) == {};
    }

    /** setupInsert into the empty store. */
    method SetupInsert(nodes: seq<Node>)
      requires Rest() && live == map[] && cache == map[] && DistinctKeys(nodes)
      requires forall i :: 0 <= i < |nodes| ==> nodes[i].value.key != 0 && 0 <= nodes[i].pos < Pow2(depth)
      modifies this
      ensures Rest() && live == LiveOf(nodes)
    {
      hide Inv, AllOf, Bodies;
      ghost var position := Positions(LiveOf(nodes));
      forall i | 0 <= i < |nodes| ensures Placeable(depth, position, Blocks(nodes)[i]) { LiveAt(nodes, i); }
      EmptyAnyPosition(depth, live, position, buckets);
      buckets, cache := PlaceAll(depth, position, buckets, Blocks(nodes));
      BlocksBodies(nodes);
      if 0 in LiveOf(nodes) { LiveFrom(nodes, 0); }
      live := LiveOf(nodes);
    }

    // ----- the end of an operation -----

    /** The fake reads that pad an operation: as many paths are fetched as it takes to
        come to 1.45 or 4.35 for each level, and none if it has come that far. */
    method PadReads(find: bool)
      requires Busy()
      modifies this`cache, this`readView, this`readCnt, this`leafList
      ensures Busy() && old(cache).Keys <= cache.Keys && readCnt >= old(readCnt)
      ensures 100 * readCnt >= (if find then 145 else 435) * depth
      ensures readCnt > old(readCnt) ==> 100 * (readCnt - 1) < (if find then 145 else 435) * depth
    {
      hide StoreInv, PathsOf;
      var i := readCnt;
      while 100 * i < (if find then 145 else 435) * depth
        invariant Busy() && old(cache).Keys <= cache.Keys && i == readCnt >= old(readCnt)
        invariant readCnt > old(readCnt) ==> 100 * (readCnt - 1) < (if find then 145 else 435) * depth
      {
        var leaf := RandomPath(depth);
        FetchListed(leaf);
        i := i + 1;
      }
    }

    /** Nodes of the cache that may be placed in the bucket at this depth of the
        path, at most Z of them. */
    method GetIntersectingBlocks(leaf: int, curDepth: nat) returns (valid: seq<int>)
      requires 0 <= leaf < Pow2(depth) && curDepth <= depth
      requires forall k :: k in cache ==> k in live && cache[k] == live[k] && 0 <= cache[k].pos < Pow2(depth)
      ensures Evicts(depth, Positions(live), cache, valid, NodeAt(depth, leaf, depth - curDepth))
    {
      hide NodeAt, OnPath;
      valid := [];
      var node := GetBucketOnPath(leaf, curDepth);
      var rest := cache.Keys;
      while rest != {} && |valid| < Z
        invariant rest <= cache.Keys
        invariant Evicts(depth, Positions(live), cache, valid, node)
        invariant forall z :: 0 <= z < |valid| ==> valid[z] !in rest
        decreases rest
      {
        var id := Pick(rest);
        rest := rest - {id};
        var n := GetBucketOnPath(cache[id].pos, curDepth);
        SamePathBucket(depth, Positions(live), leaf, id, depth - curDepth);
        if n == node {
          valid := valid + [id];
        }
      }
    }

    /** Write nodes of the cache into the bucket at depth d of the path, unless
        that bucket has been written already. */
    method WritePath(leaf: int, d: nat, ghost open: set<int>)
      requires 0 <= leaf < Pow2(depth) && d <= depth && Opened(open)
      requires NodeAt(depth, leaf, depth - d) in open || NodeAt(depth, leaf, depth - d) in writeView
      requires forall n :: n in writeView ==> n !in open
      modifies this`cache, this`writeView, this`buckets
      ensures var node := NodeAt(depth, leaf, depth - d);
              && Opened(open - {node}) && node in writeView
              && (forall n :: n in writeView <==> n in old(writeView) || n == node)
    {
      hide Inv, NodeAt, OnPath;
      var node := GetBucketOnPath(leaf, d);
      if node !in writeView {
        CacheIsLive(depth, buckets, cache, live, open);
        var chosen := GetIntersectingBlocks(leaf, d);
        var bucket := seq(|chosen|, z requires 0 <= z < |chosen| && chosen[z] in cache reads this =>
          Block(chosen[z], cache[chosen[z]]));
        ghost var before := cache;
        cache := map id | id in cache && id !in chosen :: cache[id];
        EvictKeeps(depth, Positions(live), buckets, before, Bodies(live), open, node, chosen, bucket, cache);
        writeView := writeView + [node];
        buckets := buckets[node := bucket];
      } else {
        assert open - {node} == open;
      }
    }

    /** Write back all fetched paths, deepest buckets first. */
    method EvictAll()
      requires Busy()
      modifies this`cache, this`writeView, this`buckets
      ensures Opened({})
    {
      hide StoreInv, PathsOf, NodeAt;
      ghost var leaves := LeafSet(leafList);
      forall i | 0 <= i < |leafList|
        ensures 0 <= leafList[i] < Pow2(depth) && leafList[i] in leaves { assert leafList[i] in leaves; }
      ghost var open0 := PathsOf(depth, leaves);
      ghost var open := open0;
      for d := depth + 1 downto 0
        invariant Opened(open)
        invariant forall n :: n in open <==> n in open0 && n !in writeView
        invariant PathsWritten(depth + 1 - d, |leafList|)
      {
        for i := 0 to |leafList|
          invariant Opened(open)
          invariant forall n :: n in open <==> n in open0 && n !in writeView
          invariant PathsWritten(depth - d, |leafList|)
          invariant PathsWritten(depth + 1 - d, i)
        {
          InPathsOf(depth, leaves, leafList[i], depth - d);
          WritePath(leafList[i], d, open);
          open := open - {NodeAt(depth, leafList[i], depth - d)};
        }
      }
      forall n | n in open0 ensures n in writeView {
        var leaf, k := PathsOfWitness(depth, leaves, n);
        var i :| 0 <= i < |leafList| && leafList[i] == leaf;
      }
      forall n ensures n !in open { assert n in open0 ==> n in writeView; }
      EmptySet(open);
    }

    ghost predicate PathsWritten(levels: nat, paths: nat)
      requires paths <= |leafList|
      reads this
    {
      forall i, k :: 0 <= i < paths && 0 <= k < levels ==>
        leafList[i] >= 0 && NodeAt(depth, leafList[i], k) in writeView
    }

    /** Move one node if it was modified and let its links follow its children. */
    method RelinkNode(k: int, ghost v: View, ghost i: int, ghost done: set<int>)
      requires Busy() && k in cache && v.cached == cache.Keys && v.modified == modified
      requires Relinking(v, live, i, done) && k in v.live && k !in done
      requires v.live[k].value.height == i && forall j :: j in v.live ==> Descends(v.live, j)
      modifies this`cache, this`live
      ensures Busy() && cache.Keys == old(cache).Keys
      ensures Relinking(v, live, i, done + {k})
    {
      hide StoreInv, PathsOf, Relinked;
      assert Descends(v.live, k);
      CacheIsLive(depth, buckets, cache, live, PathsOf(depth, LeafSet(leafList)));
      var node := cache[k];
      if node.value.key in modified {
        var leaf := RandomPath(depth);
        node := node.(pos := leaf);
      }
      var links := node.value;
      if links.leftID != 0 && links.leftID in cache {
        links := links.(leftPos := cache[links.leftID].pos);
      }
      if links.rightID != 0 && links.rightID in cache {
        links := links.(rightPos := cache[links.rightID].pos);
      }
      node := node.(value := links);
      RelinkStep(v, live, i, done, k, node);
      Assign(k, node);
    }

    /** The relinking loop over the cache, from height 1 up to the bound. */
    method Relink(ghost rootKey: int, ghost rootPos: int, ghost t: Tree<string>)
      requires Busy() && Rep(live, rootKey, rootPos, t) && live.Keys == Keys(t)
      modifies this`cache, this`live
      ensures Busy() && cache.Keys == old(cache).Keys
      ensures Relinking(old(Now()), live, maxHeight + 1, {})
    {
      hide StoreInv, PathsOf, Relinked, Descends, Relinking, Rep;
      ghost var v := Now();
      forall k | k in v.live ensures Descends(v.live, k) && 1 <= v.live[k].value.height {
        RepDescends(v.live, rootKey, rootPos, t, k);
      }
      RelinkStart(v);
      for i := 1 to maxHeight + 1
        invariant Busy() && cache.Keys == v.cached && Relinking(v, live, i, {})
      {
        var rest := cache.Keys;
        ghost var done: set<int> := {};
        while rest != {}
          invariant Busy() && cache.Keys == v.cached && rest <= v.cached && done == v.cached - rest
          invariant Relinking(v, live, i, done)
          decreases rest
        {
          var k := Pick(rest);
          CachedHeight(v, i, done, k);
          if cache[k].value.height == i {
            RelinkNode(k, v, i, done);
          } else {
            RelinkSkip(v, live, i, done, k);
          }
          done := done + {k};
          rest := rest - {k};
        }
        assert done == v.cached;
        RelinkNext(v, live, i);
      }
    }

    lemma AllInRange()
      requires Busy()
      ensures forall k :: k in live ==> 0 <= live[k].pos < Pow2(depth)
    {
      hide PathsOf, Inv;
      forall k | k in live ensures 0 <= live[k].pos < Pow2(depth) {
        PositionInRange(depth, buckets, cache, live, PathsOf(depth, LeafSet(leafList)), k);
      }
    }

    lemma CachedHeight(v: View, i: int, done: set<int>, k: int)
      requires Busy() && Relinking(v, live, i, done) && k in cache && cache.Keys == v.cached
      ensures k in v.live && cache[k].value.height == v.live[k].value.height
    {
      hide PathsOf, Inv;
      CacheIsLive(depth, buckets, cache, live, PathsOf(depth, LeafSet(leafList)));
    }

    /** finilize: every fetched bucket has been rewritten, and the same tree is
        found from the root's new position if it is found at all. Before the leaves
        are drawn, that is sure if and only if no node above the relinked heights
        has a touched child that is not (or there is only one leaf). */
    method Finalize(find: bool, rootKey: int, rootPos: int, ghost t: Tree<string>) returns (newPos: int, ghost v: View)
      requires Busy() && Holds(Now(), rootKey, rootPos, t) && live.Keys == Keys(t)
      modifies this
      ensures Rest() && live.Keys == Keys(t)
      ensures readCnt >= old(readCnt) && 100 * readCnt >= (if find then 145 else 435) * depth
      ensures readCnt > old(readCnt) ==> 100 * (readCnt - 1) < (if find then 145 else 435) * depth
      ensures v.live == old(live) && v.modified == old(modified) && old(cache).Keys <= v.cached
      ensures Outcome(v, live, maxHeight, Pow2(depth))
      ensures Reached(live, rootKey, t) <==> Rep(live, rootKey, newPos, t)
      ensures Surely(v, maxHeight, Pow2(depth), rootKey, t) <==>
              depth == 0 || !Exposed(old(modified), maxHeight, t)
      ensures depth == 0 || !Exposed(old(modified), maxHeight, t) ==> Rep(live, rootKey, newPos, t)
    {
      hide StoreInv, PathsOf, Holds, Relinking, Unmoved, Rep, Exposed, Surely;
      ghost var v0 := Now();
      PadReads(find);
      v := Now();
      HoldsFrame(v0, v, {}, rootKey, rootPos, t);
      HoldsRep(v, rootKey, rootPos, t);
      AllInRange();
      LeafCount(depth);
      RelinkSurely(v, maxHeight, Pow2(depth), rootKey, rootPos, t);
      Relink(rootKey, rootPos, t);
      AllInRange();
      RelinkExactly(v, live, maxHeight, rootKey, rootPos, t);
      SurelyIs(v, live, maxHeight, Pow2(depth), rootKey, t);
      RelinkingParts(v, live, maxHeight + 1);
      CacheIsLive(depth, buckets, cache, live, PathsOf(depth, LeafSet(leafList)));
      newPos := if rootKey in cache then cache[rootKey].pos else rootPos;
      RootPosition(v, live, maxHeight + 1, rootKey, rootPos, t);
      EvictAll();
      leafList := [];
      modified := {};
    }
  }

  lemma LeafCount(depth: nat)
    ensures Pow2(depth) >= 1 && (Pow2(depth) == 1 <==> depth == 0)
  {
  }

  lemma HoldsRep(v: View, id: int, pos: int, t: Tree<string>)
    requires Holds(v, id, pos, t)
    ensures Rep(v.live, id, pos, t)
  {
  }

  lemma RelinkingParts(v: View, live': map<int, Node>, i: int)
    requires Relinking(v, live', i, {})
    ensures live'.Keys == v.live.Keys
  {
  }

  /** A root that is not cached has not moved. */
  lemma {:induction false} RootPosition(v: View, live': map<int, Node>, i: int, id: int, pos: int, t: Tree<string>)
    requires Rep(v.live, id, pos, t) && Relinking(v, live', i, {})
    ensures t.Node? ==> id in live' && Current(live', t, pos) == live'[id].pos
    ensures t.Node? && id !in v.cached ==> live'[id].pos == pos
    ensures t.Leaf? ==> id == 0 && forall p :: Rep(live', id, p, t)
  {
  }
}

/** PRFORAM: a Path ORAM whose positions are a fixed function of the id. Paths
    are fetched into the stash and greedily written back; the whole must behave
    as a plain map from ids to values. */
module PrfOram {
  import opened Powers
  import opened HeapTree
  import opened Collections
  import opened Bids
  import opened OramState
  import opened OramCopies
  import opened OramSetup

  ghost function ValueOf(contents: map<Bid, Value>, id: Bid): Value {
    if id in contents then contents[id] else Nothing
  }

  ghost function PutAll(contents: map<Bid, Value>, items: seq<(Bid, Value, int)>): map<Bid, Value> {
    if items == [] then contents
    else
      var (id, value, _) := items[|items| - 1];
      PutAll(contents, items[..|items| - 1])[id := value]
  }

  /** A null id is refused, so no stored block is taken for a dummy. */
  ghost predicate NoNull(contents: map<Bid, Value>) {
    forall id :: id in contents ==> !Null(id)
  }

  /** No id collides with the integer conversion of a position. */
  ghost predicate NoBare(contents: map<Bid, Value>) {
    forall id :: id in contents ==> !id.Bare?
  }

  // ----- what a batch has in the stash -----

  /** Some of the buckets holds a block of the id. */
  ghost predicate InBuckets(buckets: seq<Bucket<Bid, Value>>, open: set<int>, id: Bid) {
    exists n :: n in open && 0 <= n < |buckets| && Has(buckets[n], id)
  }

  /** The stash holds the given ids and those of the open buckets. */
  ghost predicate Held(ids: set<Bid>, buckets: seq<Bucket<Bid, Value>>, open: set<int>, stash: map<Bid, Box<Value>>) {
    forall id :: id in stash <==> id in ids || InBuckets(buckets, open, id)
  }

  lemma HeldNothing(buckets: seq<Bucket<Bid, Value>>, stash: map<Bid, Box<Value>>)
    ensures Held(stash.Keys, buckets, {}, stash)
  {
  }

  lemma HeldFetch(ids: set<Bid>, buckets: seq<Bucket<Bid, Value>>, open: set<int>, n: int,
                  stash: map<Bid, Box<Value>>, stash': map<Bid, Box<Value>>)
    requires Held(ids, buckets, open, stash) && 0 <= n < |buckets|
    requires forall id :: id in stash' <==> id in stash || Has(buckets[n], id)
    ensures Held(ids, buckets, open + {n}, stash')
  {
    hide Has;
    forall id ensures id in stash' <==> id in ids || InBuckets(buckets, open + {n}, id) {
      if InBuckets(buckets, open + {n}, id) && !InBuckets(buckets, open, id) {
        var m :| m in open + {n} && 0 <= m < |buckets| && Has(buckets[m], id);
        assert m == n;
      }
      if InBuckets(buckets, open, id) {
        var m :| m in open && 0 <= m < |buckets| && Has(buckets[m], id);
        assert m in open + {n};
      }
      if Has(buckets[n], id) { assert n in open + {n}; }
    }
  }

  lemma HeldWrite(ids: set<Bid>, buckets: seq<Bucket<Bid, Value>>, open: set<int>, stash: map<Bid, Box<Value>>, id: Bid,
                  box: Box<Value>)
    requires Held(ids, buckets, open, stash)
    ensures Held(ids + {id}, buckets, open, stash[id := box])
  {
  }

  class Oram {
    const depth: nat
    ghost const position: Bid -> int
    var buckets: seq<Bucket<Bid, Value>>
    var stash: map<Bid, Box<Value>>
    var viewmap: seq<int>
    var budget: nat
    ghost var contents: map<Bid, Value>
    /** Batch reads made so far. */
    ghost var batches: nat
    /** The buckets without buried copies. */
    ghost var view: seq<Bucket<Bid, Value>>

    ghost predicate Opened(open: set<int>)
      reads this
    {
      && Inv(depth, position, view, stash, contents, open)
      && Covers(depth, position, buckets, view, stash, open)
      && NoNull(contents)
    }

    /** The stash and what the buckets show hold every id exactly once. */
    ghost predicate Valid()
      reads this
    {
      Opened({})
    }

    /** No bucket holds an old copy: every id is stored exactly once. */
    ghost predicate Single()
      reads this
    {
      buckets == view
    }

    /** In the middle of an operation: the buckets in open are in the stash, with
        the ids of the stash it started from and those written since. */
    ghost predicate Fetching(ids: set<Bid>, open: set<int>)
      reads this
    {
      Opened(open) && Held(ids, buckets, open, stash) && Copied(depth, position, buckets, stash, open)
    }

    constructor (maxSize: nat, ghost position: Bid -> int)
      requires maxSize / Z >= 1
      ensures Valid() && Single() && contents == map[] && this.position == position && batches == 0
      ensures depth == FloorLog2(maxSize / Z) && budget == Z * (Pow2(depth + 1) - 1)
    {
      var d := FloorLog2(maxSize / Z);
      depth := d;
      this.position := position;
      buckets := seq(Pow2(d + 1) - 1, _ => []);
      view := seq(Pow2(d + 1) - 1, _ => []);
      stash, viewmap := map[], [];
      budget := Z * (Pow2(d + 1) - 1);
      contents, batches := map[], 0;
      new;
      InitialInv(depth, position, buckets);
      CoversItself(depth, position, buckets, stash, {});
    }

    method GetBoxOnPath(leaf: int, curDepth: nat) returns (n: int)
      requires 0 <= leaf < Pow2(depth) && curDepth <= depth
      ensures n == NodeAt(depth, leaf, depth - curDepth)
      ensures 0 <= n < Pow2(depth + 1) - 1
    {
      PathBucket(depth, leaf, depth - curDepth);
      n := GetNodeOnPath(depth, leaf, depth, curDepth);
    }

    /** Copy the blocks of one bucket into the stash unless already there. */
    method FetchBucket(n: int, ghost ids: set<Bid>, ghost open: set<int>)
      requires Fetching(ids, open) && 0 <= n < |buckets| && n !in open && Reached(depth, position, open, n)
      modifies this`stash
      ensures Fetching(ids, open + {n})
    {
      hide Inv, OnPath, Covers, Reached, Held, Copied;
      var bucket := buckets[n];
      ghost var before := stash;
      GatherNothing(bucket, stash);
      for z := 0 to |bucket|
        invariant Gathered(before, bucket[..z], stash)
      {
        ghost var mid := stash;
        if bucket[z].id !in stash {
          stash := stash[bucket[z].id := bucket[z].box];
        }
        GatherStep(before, bucket, z, mid, stash);
      }
      assert bucket[..|bucket|] == bucket;
      FetchedFrom(depth, position, buckets, view, before, contents, ids, open, n, stash);
    }

    /** Fetch every bucket on the path to a leaf, from the root down; a batch skips
        those fetched before. */
    method FetchPath(leaf: int, batch: bool, ghost ids: set<Bid>, ghost leaves: set<int>)
      requires 0 <= leaf < Pow2(depth) && Leaves(depth, leaves) && Fetching(ids, PathsOf(depth, leaves))
      requires if batch then forall n :: n in viewmap <==> n in PathsOf(depth, leaves) else leaves == {}
      modifies this`stash, this`viewmap
      ensures Fetching(ids, PathsOf(depth, leaves + {leaf}))
      ensures if batch then forall n :: n in viewmap <==> n in PathsOf(depth, leaves + {leaf})
              else viewmap == old(viewmap)
    {
      hide Inv, PathsOf, NodeAt, Covers, Reached, Held, Copied;
      ghost var base := PathsOf(depth, leaves);
      ghost var open := base;
      if !batch { NoPaths(depth); }
      for d := 0 to depth + 1
        invariant Fetching(ids, open)
        invariant forall n :: n in open <==>
          n in base || exists k :: depth - d < k <= depth && n == NodeAt(depth, leaf, k)
        invariant if batch then forall n :: n in viewmap <==> n in open else viewmap == old(viewmap)
      {
        var node := GetBoxOnPath(leaf, d);
        ghost var before := open;
        open := open + {node};
        PathNodesDistinct(depth, leaf);
        if batch {
          if node in viewmap {
            assert open == before;
            continue;
          }
          viewmap := viewmap + [node];
        }
        ReachedOnPath(depth, position, leaf, depth - d, before);
        ShapeOf(depth, position, buckets, view, stash, contents, before);
        FetchBucket(node, ids, before);
      }
      PathsGrow(depth, leaves, leaf, open);
    }

    /** Ids of the stash that may be placed in the bucket at this depth of the
        path, at most Z of them, and all of them if fewer than Z are returned. */
    method GetIntersectingBlocks(leaf: int, curDepth: nat) returns (valid: seq<Bid>)
      requires 0 <= leaf < Pow2(depth) && curDepth <= depth
      requires forall id :: id in stash ==> 0 <= position(id) < Pow2(depth) && stash[id].pos == position(id)
      ensures |valid| <= Z && Evicts(depth, position, stash, valid, NodeAt(depth, leaf, depth - curDepth))
      ensures |valid| < Z ==>
        forall id :: id in stash && OnPath(depth, position, id, NodeAt(depth, leaf, depth - curDepth)) ==> id in valid
    {
      hide NodeAt, OnPath;
      valid := [];
      var node := GetBoxOnPath(leaf, curDepth);
      var rest := stash.Keys;
      while rest != {} && |valid| < Z
        invariant rest <= stash.Keys
        invariant Evicts(depth, position, stash, valid, node)
        invariant forall z :: 0 <= z < |valid| ==> valid[z] !in rest
        invariant forall id :: id in stash && id !in rest && OnPath(depth, position, id, node) ==> id in valid
        decreases rest
      {
        var id := Pick(rest);
        rest := rest - {id};
        var n := GetBoxOnPath(stash[id].pos, curDepth);
        SamePathBucket(depth, position, leaf, id, depth - curDepth);
        if n == node {
          valid := valid + [id];
        }
      }
    }

    /** Nothing is left in the stash unless the root bucket is full. */
    ghost predicate RootFull()
      reads this
    {
      stash == map[] || (|buckets| > 0 && |buckets[0]| == Z)
    }

    /** Write blocks of the stash into the bucket at depth d of the path, unless
        that bucket has been written already. */
    method WritePath(leaf: int, d: nat, ghost open: set<int>)
      requires 0 <= leaf < Pow2(depth) && d <= depth && Opened(open) && UpClosed(depth, position, open)
      requires NodeAt(depth, leaf, depth - d) in open || NodeAt(depth, leaf, depth - d) in viewmap
      requires forall n :: n in viewmap ==> n !in open
      requires 0 in viewmap ==> RootFull()
      modifies this`stash, this`viewmap, this`buckets, this`view
      ensures 0 in viewmap ==> RootFull()
      ensures var node := NodeAt(depth, leaf, depth - d);
              && Opened(open - {node}) && node in viewmap
              && (forall n :: n in viewmap <==> n in old(viewmap) || n == node)
              && Rewritten(old(buckets), old(view), buckets, view, if node in open then {node} else {})
    {
      hide Inv, NodeAt, OnPath, Covers, UpClosed, Evicts;
      var node := GetBoxOnPath(leaf, d);
      ShapeOf(depth, position, buckets, view, stash, contents, open);
      if node !in viewmap {
        StashPositions(depth, position, view, stash, contents, open);
        var chosen := GetIntersectingBlocks(leaf, d);
        RootTakesAll(depth, position, view, stash, contents, open, leaf, chosen, node);
        PutBucket(node, chosen, open);
        viewmap := viewmap + [node];
      } else {
        assert open - {node} == open;
      }
    }

    /** Move the chosen blocks from the stash into a bucket. */
    method PutBucket(node: int, chosen: seq<Bid>, ghost open: set<int>)
      requires Opened(open) && UpClosed(depth, position, open)
      requires 0 <= node < |buckets| && node < |view| && node in open && Evicts(depth, position, stash, chosen, node)
      modifies this`stash, this`buckets, this`view
      ensures Opened(open - {node})
      ensures |buckets| == |old(buckets)| && |buckets[node]| == |chosen|
      ensures buckets == old(buckets)[node := buckets[node]] && view == old(view)[node := buckets[node]]
      ensures forall id :: id in stash <==> id in old(stash) && id !in chosen
    {
      hide Inv, OnPath, Covers, UpClosed;
      var bucket := seq(|chosen|, z requires 0 <= z < |chosen| && chosen[z] in stash reads this =>
        Block(chosen[z], stash[chosen[z]]));
      ghost var before := stash;
      stash := map id | id in stash && id !in chosen :: stash[id];
      EvictKeeps(depth, position, view, before, contents, open, node, chosen, bucket, stash);
      EvictCovers(depth, position, buckets, view, before, open, node, chosen, bucket, stash);
      buckets := buckets[node := bucket];
      view := view[node := bucket];
    }

    /** Write back all fetched paths, deepest buckets first. */
    method EvictAll(leafs: set<int>)
      requires Leaves(depth, leafs) && Opened(PathsOf(depth, leafs))
      modifies this`stash, this`viewmap, this`buckets, this`view
      ensures Valid()
      ensures leafs != {} ==> RootFull()
      ensures Rewritten(old(buckets), old(view), buckets, view, PathsOf(depth, leafs))
    {
      hide Inv, Covers, PathsOf, RootFull, Rewritten, Oram.Evicting;
      var order := OrderedKeys(leafs);
      ghost var open0 := PathsOf(depth, leafs);
      ghost var open := open0;
      viewmap := [];
      EvictStart(order, leafs);
      NothingRewritten(buckets, view);
      for d := depth + 1 downto 0
        invariant Evicting(order, leafs, open, depth + 1 - d, 0) && open <= open0
        invariant Rewritten(old(buckets), old(view), buckets, view, open0 - open)
      {
        for t := 0 to |order|
          invariant Evicting(order, leafs, open, depth - d, t) && open <= open0
          invariant Rewritten(old(buckets), old(view), buckets, view, open0 - open)
        {
          ghost var b, v, before := buckets, view, open;
          open := EvictOne(order, leafs, open, d, t);
          RewrittenMore(old(buckets), old(view), b, v, buckets, view, open0 - before, before - open);
          assert open0 - before + (before - open) == open0 - open;
        }
        EvictNext(order, leafs, open, depth - d);
      }
      EvictEnd(order, leafs, open);
      assert open0 - open == open0;
    }

    /** The write-back has done the lowest h levels of all paths and level h of the
        first t: what is open is what is not written. */
    ghost predicate Evicting(order: seq<int>, leafs: set<int>, open: set<int>, h: nat, t: nat)
      reads this
    {
      && Leaves(depth, leafs) && (forall x :: x in order <==> x in leafs) && t <= |order|
      && Opened(open) && (0 in viewmap ==> RootFull())
      && (forall n :: n in open <==> n in PathsOf(depth, leafs) && n !in viewmap)
      && PathsWritten(order, h, |order|) && PathsWritten(order, h + 1, t) && NotAbove(viewmap, h + 1)
    }

    lemma EvictStart(order: seq<int>, leafs: set<int>)
      requires Leaves(depth, leafs) && (forall x :: x in order <==> x in leafs) && viewmap == []
      requires Opened(PathsOf(depth, leafs))
      ensures Evicting(order, leafs, PathsOf(depth, leafs), 0, 0) && |buckets| == |view|
    {
      hide Inv, PathsOf, RootFull;
    }

    lemma EvictNext(order: seq<int>, leafs: set<int>, open: set<int>, h: nat)
      requires Evicting(order, leafs, open, h, |order|)
      ensures Evicting(order, leafs, open, h + 1, 0)
    {
      hide Inv, Covers, PathsOf, RootFull, NodeAt;
    }

    lemma EvictEnd(order: seq<int>, leafs: set<int>, open: set<int>)
      requires Evicting(order, leafs, open, depth + 1, 0)
      ensures open == {} && Valid() && (leafs != {} ==> RootFull())
    {
      hide Inv, Covers, PathsOf, RootFull, NodeAt;
      forall n ensures n !in open {
        if n in PathsOf(depth, leafs) {
          var leaf, k := PathsOfWitness(depth, leafs, n);
          assert leaf in order;
          var i :| 0 <= i < |order| && order[i] == leaf;
        }
      }
      EmptySet(open);
      if leafs != {} {
        var leaf := SomeElement(leafs);
        assert leaf in order;
        var i :| 0 <= i < |order| && order[i] == leaf;
        RootIsOne(depth, leaf);
      }
    }

    /** One bucket of the write-back. */
    method EvictOne(order: seq<int>, ghost leafs: set<int>, ghost open: set<int>, d: nat, t: nat)
      returns (ghost open': set<int>)
      requires d <= depth && t < |order| && Evicting(order, leafs, open, depth - d, t)
      modifies this`stash, this`viewmap, this`buckets, this`view
      ensures Evicting(order, leafs, open', depth - d, t + 1) && open' <= open
      ensures Rewritten(old(buckets), old(view), buckets, view, open - open')
    {
      hide Inv, Covers, PathsOf, RootFull, NodeAt, Rewritten, UpClosed;
      forall i | 0 <= i < |order| ensures 0 <= order[i] < Pow2(depth) { assert order[i] in order; }
      ghost var n, h := NodeAt(depth, order[t], depth - d), depth - d;
      InPathsOf(depth, leafs, order[t], h);
      StaysUpClosed(order, leafs, PathsOf(depth, leafs), open, h);
      PathBucket(depth, order[t], h);
      WritePath(order[t], d, open);
      open' := open - {n};
      assert open - open' == if n in open then {n} else {};
    }

    /** The buckets written so far are among the lowest levels. */
    ghost predicate NotAbove(written: seq<int>, levels: nat)
      reads this
    {
      forall n :: n in written ==> 0 <= n && n + 1 < Pow2(depth + 1) && HeightOf(depth, n + 1) < levels
    }

    /** The deepest buckets are written first, so the open ones stay upward closed. */
    lemma StaysUpClosed(order: seq<int>, leafs: set<int>, open0: set<int>, open: set<int>, h: nat)
      requires Leaves(depth, leafs) && open0 == PathsOf(depth, leafs) && (forall x :: x in order <==> x in leafs)
      requires forall n :: n in open <==> n in open0 && n !in viewmap
      requires PathsWritten(order, h, |order|) && NotAbove(viewmap, h + 1)
      ensures UpClosed(depth, position, open)
    {
      hide OnPath, NodeAt, Higher, PathsOf;
      forall id, m, n | n in open && OnPath(depth, position, id, n) && OnPath(depth, position, id, m)
      && Higher(depth, m, n)
        ensures m in open {
        var leaf, k := PathsOfWitness(depth, leafs, n);
        assert leaf in order;
        var i :| 0 <= i < |order| && order[i] == leaf;
        var j := AncestorOnPath(depth, position, leaf, k, id, m);
        InPathsOf(depth, leafs, leaf, j);
      }
    }

    /** ReadBox: fails on a null id, otherwise the value last written, or nothing. */
    method ReadBox(bid: Bid, pos: int) returns (ok: bool, value: Value)
      requires Valid() && pos == position(bid) && 0 <= pos < Pow2(depth)
      modifies this`stash, this`viewmap, this`buckets, this`view
      ensures Valid() && (old(Single()) ==> Single())
      ensures ok <==> !Null(bid)
      ensures ok ==> value == ValueOf(contents, bid)
    {
      hide Inv, Covers, Held, Copied, Rewritten;
      if Null(bid) {
        return false, Nothing;
      }
      if bid !in stash {
        ghost var ids := stash.Keys;
        BeginFetching();
        FetchPath(pos, false, ids, {});
        OpenOwnPath(depth, position, bid, {});
        StashDecides(depth, position, view, stash, contents, PathsOf(depth, {} + {pos}), bid);
        value := if bid in stash then stash[bid].value else Nothing;
        assert {} + {pos} == {pos};
        ghost var b, v := buckets, view;
        EvictAll({pos});
        RewrittenSingle(b, v, buckets, view, PathsOf(depth, {pos}));
      } else {
        StashAgrees(depth, position, view, stash, contents, {}, bid);
        value := stash[bid].value;
      }
      ok := true;
    }

    lemma BeginFetching()
      requires Valid()
      ensures Leaves(depth, {}) && PathsOf(depth, {}) == {} && Fetching(stash.Keys, PathsOf(depth, {}))
    {
      hide Inv, Covers;
      OpenNothing(depth);
      HeldNothing(buckets, stash);
    }

    /** WriteBox: fails on a null id and when the write budget is used up, and then
        the map is as before; otherwise it gets the new value. */
    method WriteBox(bid: Bid, value: Value, pos: int) returns (ok: bool)
      requires Valid() && pos == position(bid) && 0 <= pos < Pow2(depth)
      modifies this`stash, this`viewmap, this`buckets, this`budget, this`contents, this`view
      ensures Valid()
      ensures ok <==> !Null(bid) && old(budget) > 0
      ensures !ok ==> contents == old(contents) && budget == old(budget)
      ensures ok ==> contents == old(contents)[bid := value] && budget == old(budget) - 1
      ensures ok ==> RootFull() && (old(Single()) ==> Single())
    {
      hide Inv, Covers, Held, Copied, Rewritten, PathsOf, RootFull;
      if Null(bid) {
        return false;
      }
      ghost var ids := stash.Keys;
      BeginFetching();
      FetchPath(pos, false, ids, {});
      assert {} + {pos} == {pos};
      ghost var open := PathsOf(depth, {pos});
      if budget == 0 {
        Abandon(ids, open);
        return false;
      }
      OpenOwnPath(depth, position, bid, {});
      StashDecides(depth, position, view, stash, contents, open, bid);
      DroppedNothing(depth, position, view, stash, contents, open, bid);
      WriteData(bid, value, pos, ids, open);
      ghost var b, v := buckets, view;
      EvictAll({pos});
      RewrittenSingle(b, v, buckets, view, open);
      ok := true;
    }

    /** An exception in the middle of an operation: what was fetched stays in the
        stash, and the buckets it came from hold only buried copies. */
    ghost method Abandon(ids: set<Bid>, open: set<int>)
      requires Fetching(ids, open)
      modifies this`view
      ensures Valid()
    {
      hide Inv, Covers, Copied;
      AbandonKeeps(depth, position, view, stash, contents, open);
      AbandonCovers(depth, position, buckets, view, stash, open);
      view := Abandoned(view, open);
    }

    /** Put a block in the stash; a copy that was not fetched is buried. */
    method WriteData(bid: Bid, value: Value, pos: int, ghost ids: set<Bid>, ghost open: set<int>)
      requires Fetching(ids, open) && budget > 0
      requires !Null(bid) && pos == position(bid) && 0 <= pos < Pow2(depth)
      modifies this`stash, this`budget, this`contents, this`view
      ensures Fetching(ids + {bid}, open) && contents == old(contents)[bid := value] && budget == old(budget) - 1
      ensures view == Dropped(old(view), open, bid)
    {
      hide Inv, Covers, Held, Dropped;
      OverwriteKeeps(depth, position, view, stash, contents, open, bid, value);
      OverwriteCovers(depth, position, buckets, view, stash, contents, open, bid, Box(value, pos));
      HeldWrite(ids, buckets, open, stash, bid, Box(value, pos));
      view := Dropped(view, open, bid);
      stash := stash[bid := Box(value, pos)];
      contents := contents[bid := value];
      budget := budget - 1;
    }

    /** Every id comes with its position. */
    ghost predicate Placed(turns: seq<(Bid, int)>) {
      Positions(depth, turns) && forall i :: 0 <= i < |turns| ==> turns[i].1 == position(turns[i].0)
    }

    /** batchRead. The test for a stashed block looks up the position as if it were
        an id: the answer is the value of the id that is asked, which is the one
        queried if and only if that test fails. */
    method BatchRead(queries: seq<(Bid, int)>) returns (results: seq<Value>)
      requires Valid() && Placed(queries)
      modifies this`stash, this`viewmap, this`buckets, this`view, this`batches
      ensures Valid() && (old(Single()) ==> Single()) && batches == old(batches) + 1
      ensures |results| == |queries|
      ensures forall i :: 0 <= i < |queries| ==>
                results[i] == ValueOf(contents, Asked(depth, old(buckets), old(stash.Keys), queries, i))
      ensures forall i :: 0 <= i < |queries| ==>
                (results[i] == ValueOf(contents, queries[i].0) <==>
                 || !StashedAt(depth, old(buckets), old(stash.Keys), queries, false, i, Bare(queries[i].1))
                 || ValueOf(contents, Bare(queries[i].1)) == ValueOf(contents, queries[i].0))
      ensures forall i :: 0 <= i < |queries| && Bare(queries[i].1) !in contents ==>
                results[i] == ValueOf(contents, queries[i].0)
    {
      hide Inv, PathsOf, Covers, Held, Copied, Rewritten, Fetches, InBuckets, NoNull, OnPath;
      batches := batches + 1;
      results := [];
      var leafs: set<int> := {};
      viewmap := [];
      ghost var ids := stash.Keys;
      BeginFetching();
      FetchesStart(depth, buckets, ids, queries, false);
      for i := 0 to |queries|
        invariant Leaves(depth, leafs) && Fetching(ids, PathsOf(depth, leafs))
        invariant buckets == old(buckets) && view == old(view) && batches == old(batches) + 1
        invariant leafs == Fetches(depth, buckets, ids, queries, false, i)
        invariant forall n :: n in viewmap <==> n in PathsOf(depth, leafs)
        invariant |results| == i
        invariant forall j :: 0 <= j < i ==> results[j] == ValueOf(contents, Asked(depth, buckets, ids, queries, j))
        invariant forall j :: 0 <= j < i && Bare(queries[j].1) !in contents ==>
          results[j] == ValueOf(contents, queries[j].0)
      {
        var (bid, pos) := queries[i];
        assert queries[i].1 == position(queries[i].0);
        StashedIs(depth, buckets, ids, queries, false, i, leafs, stash);
        FetchesStep(depth, buckets, ids, queries, false, i);
        if Bare(pos) !in stash {
          FetchPath(pos, true, ids, leafs);
          OpenOwnPath(depth, position, bid, leafs);
          leafs := leafs + {pos};
          StashDecides(depth, position, view, stash, contents, PathsOf(depth, leafs), bid);
          results := results + [if bid in stash then stash[bid].value else Nothing];
        } else {
          StashAgrees(depth, position, view, stash, contents, PathsOf(depth, leafs), Bare(pos));
          results := results + [stash[Bare(pos)].value];
        }
      }
      ghost var b, v := buckets, view;
      EvictAll(leafs);
      RewrittenSingle(b, v, buckets, view, PathsOf(depth, leafs));
    }

    /** batchWrite: the two dictionaries are walked in step, so each id comes once,
        with its value and its position. done counts the items written before the
        budget was used up. Where the same test finds the position stashed the path
        is not fetched; the map is right all the same, but an old copy survives if
        and only if the id was stored off the paths that were fetched. */
    method BatchWrite(items: seq<(Bid, Value, int)>) returns (done: nat)
      requires Valid() && Placed(Turns(items)) && forall i :: 0 <= i < |items| ==> !Null(items[i].0)
      modifies this`stash, this`viewmap, this`buckets, this`budget, this`contents, this`view
      ensures Valid()
      ensures done == if |items| <= old(budget) then |items| else old(budget)
      ensures contents == PutAll(old(contents), items[..done]) && budget == old(budget) - done
      ensures old(Single()) && done == |items| ==>
                (Single() <==> OnFetchedPaths(depth, old(buckets), old(stash.Keys), Turns(items)))
    {
      hide Inv, PathsOf, Covers, Held, Copied, Rewritten, Fetches, PutAll, Oram.Writing;
      var leafs: set<int> := {};
      viewmap := [];
      ghost var ids, view0 := stash.Keys, view;
      WritingStarts(items);
      done := 0;
      while done < |items| && budget > 0
        invariant 0 <= done <= |items| && budget == old(budget) - done && buckets == old(buckets)
        invariant Writing(ids, items, old(contents), view0, leafs, done)
      {
        leafs := WriteTurn(ids, items, old(contents), view0, leafs, done);
        done := done + 1;
      }
      WritingParts(ids, items, old(contents), view0, leafs, done);
      ghost var turns := Turns(items);
      if done < |items| {
        Abandon(ids + WrittenIds(turns, done), PathsOf(depth, leafs));
        return;
      }
      assert items[..done] == items;
      ghost var b, v := buckets, view;
      EvictAll(leafs);
      if b == view0 { SingleExactly(b, v, buckets, view, view0, PathsOf(depth, leafs), WrittenIds(turns, |turns|)); }
    }

    /** In the middle of a batch of writes, before item i. */
    ghost predicate Writing(ids: set<Bid>, items: seq<(Bid, Value, int)>, contents0: map<Bid, Value>,
                            view0: seq<Bucket<Bid, Value>>, leafs: set<int>, i: nat)
      reads this
    {
      var turns := Turns(items);
      && i <= |items| && Placed(turns) && Leaves(depth, leafs)
      && Fetching(ids + WrittenIds(turns, i), PathsOf(depth, leafs))
      && leafs == Fetches(depth, buckets, ids, turns, true, i)
      && (forall n :: n in viewmap <==> n in PathsOf(depth, leafs))
      && contents == PutAll(contents0, items[..i])
      && Without(view0, view, PathsOf(depth, leafs), WrittenIds(turns, i))
    }

    lemma WritingStarts(items: seq<(Bid, Value, int)>)
      requires Valid() && Placed(Turns(items)) && viewmap == []
      ensures Writing(stash.Keys, items, contents, view, {}, 0)
    {
      hide Inv, PathsOf, Covers, Held, Copied;
      BeginFetching();
      FetchesStart(depth, buckets, stash.Keys, Turns(items), true);
      assert items[..0] == [] && stash.Keys + WrittenIds(Turns(items), 0) == stash.Keys;
      WithoutNothing(view, Turns(items));
    }

    lemma WritingParts(ids: set<Bid>, items: seq<(Bid, Value, int)>, contents0: map<Bid, Value>,
                       view0: seq<Bucket<Bid, Value>>, leafs: set<int>, i: nat)
      requires Writing(ids, items, contents0, view0, leafs, i)
      ensures i <= |items| && Placed(Turns(items)) && Leaves(depth, leafs)
      ensures Fetching(ids + WrittenIds(Turns(items), i), PathsOf(depth, leafs))
      ensures leafs == Fetches(depth, buckets, ids, Turns(items), true, i)
      ensures contents == PutAll(contents0, items[..i])
      ensures Without(view0, view, PathsOf(depth, leafs), WrittenIds(Turns(items), i))
    {
    }

    /** One item of a batch of writes. */
    method WriteTurn(ghost ids: set<Bid>, items: seq<(Bid, Value, int)>, ghost contents0: map<Bid, Value>,
                     ghost view0: seq<Bucket<Bid, Value>>, leafs: set<int>, i: nat) returns (leafs': set<int>)
      requires i < |items| && Writing(ids, items, contents0, view0, leafs, i) && budget > 0 && !Null(items[i].0)
      modifies this`stash, this`viewmap, this`budget, this`contents, this`view
      ensures Writing(ids, items, contents0, view0, leafs', i + 1) && budget == old(budget) - 1
    {
      hide Inv, PathsOf, Covers, Held, Copied, Fetches, InBuckets, Dropped, PutAll, Without, StashedAt, WrittenIds;
      var (bid, value, pos) := items[i];
      ghost var turns, written := Turns(items), WrittenIds(Turns(items), i);
      assert turns[i] == (bid, pos) && turns[i].1 == position(turns[i].0);
      StashedIs(depth, buckets, ids, turns, true, i, leafs, stash);
      FetchesStep(depth, buckets, ids, turns, true, i);
      leafs' := leafs;
      if Bare(pos) !in stash {
        FetchPath(pos, true, ids + written, leafs);
        WithoutGrows(depth, view0, view, leafs, pos, written);
        leafs' := leafs + {pos};
      }
      ghost var before := view;
      WriteData(bid, value, pos, ids + written, PathsOf(depth, leafs'));
      WithoutWrites(view0, before, view, PathsOf(depth, leafs'), written, bid);
      WrittenNext(turns, i);
      assert ids + written + {bid} == ids + WrittenIds(turns, i + 1);
      PutNext(contents0, items, i);
    }

    /** setupInsert on an empty store, for the nodes in any order: every record
        ends in exactly one place, a bucket on its own path or the stash. */
    method SetupInsert(nodes: seq<Block<Bid, Value>>)
      requires Valid() && contents == map[] && stash == map[]
      requires forall i :: 0 <= i < |nodes| ==> Placeable(depth, position, nodes[i]) && !Null(nodes[i].id)
      requires forall i, j :: 0 <= i < j < |nodes| ==> nodes[i].id != nodes[j].id
      modifies this`stash, this`viewmap, this`buckets, this`budget, this`contents, this`view
      ensures Valid() && Single() && contents == AllOf(nodes)
    {
      hide Inv, AllOf, Covers;
      NothingShown(depth, position, buckets, view);
      buckets, stash := PlaceAll(depth, position, buckets, nodes);
      viewmap := [];
      AllOfNotNull(nodes);
      contents := AllOf(nodes);
      view := buckets;
      InvShape(depth, position, buckets, stash, contents, {});
      CoversItself(depth, position, buckets, stash, {});
    }

    /** The lowest `levels` buckets of the first paths in the list have been written. */
    ghost predicate PathsWritten(order: seq<int>, levels: nat, paths: nat)
      requires paths <= |order|
      reads this
    {
      forall i, k :: 0 <= i < paths && 0 <= k < levels ==> order[i] >= 0 && NodeAt(depth, order[i], k) in viewmap
    }
  }

  lemma {:induction false} AllOfNotNull(nodes: seq<Block<Bid, Value>>)
    requires forall i :: 0 <= i < |nodes| ==> !Null(nodes[i].id)
    ensures NoNull(AllOf(nodes))
  {
    if nodes != [] { AllOfNotNull(nodes[..|nodes| - 1]); }
  }

  // ----- one fetched bucket -----

  lemma GatherNothing(bucket: Bucket<Bid, Value>, stash: map<Bid, Box<Value>>)
    ensures Gathered(stash, bucket[..0], stash)
  {
  }

  lemma FetchedFrom(depth: nat, position: Bid -> int, buckets: seq<Bucket<Bid, Value>>, view: seq<Bucket<Bid, Value>>,
                    stash: map<Bid, Box<Value>>, contents: map<Bid, Value>, ids: set<Bid>, open: set<int>, n: int,
                    stash': map<Bid, Box<Value>>)
    requires Inv(depth, position, view, stash, contents, open) && Covers(depth, position, buckets, view, stash, open)
    requires 0 <= n < |buckets| && n !in open && Reached(depth, position, open, n)
    requires Gathered(stash, buckets[n], stash')
    requires Held(ids, buckets, open, stash) && Copied(depth, position, buckets, stash, open)
    ensures Inv(depth, position, view, stash', contents, open + {n})
    ensures Covers(depth, position, buckets, view, stash', open + {n})
    ensures Held(ids, buckets, open + {n}, stash') && Copied(depth, position, buckets, stash', open + {n})
  {
    hide Inv, OnPath, Held, Reached;
    GatheredShown(depth, position, buckets[n], view, stash, contents, open, n, stash');
    FetchKeeps(depth, position, view, stash, contents, open, n, stash');
    FetchCovers(depth, position, buckets, view, stash, open, n, stash');
    HeldFetch(ids, buckets, open, n, stash, stash');
    CopiedMore(depth, position, buckets, view, stash, contents, open, n, stash');
  }

  lemma CopiedMore(depth: nat, position: Bid -> int, buckets: seq<Bucket<Bid, Value>>, view: seq<Bucket<Bid, Value>>,
                   stash: map<Bid, Box<Value>>, contents: map<Bid, Value>, open: set<int>, n: int,
                   stash': map<Bid, Box<Value>>)
    requires Inv(depth, position, view, stash, contents, open) && Covers(depth, position, buckets, view, stash, open)
    requires 0 <= n < |buckets| && n !in open && Gathered(stash, buckets[n], stash')
    requires Copied(depth, position, buckets, stash, open)
    ensures Copied(depth, position, buckets, stash', open + {n})
  {
    hide OnPath;
    ClosedNotStashed(depth, position, view, stash, contents, open, n);
    assert Layer(depth, position, buckets[n], view[n], view, stash, open, n);
    forall z | 0 <= z < |buckets[n]|
      ensures buckets[n][z].id in stash' && OnPath(depth, position, buckets[n][z].id, n) {
      InBucket(buckets[n], buckets[n][z]);
      if buckets[n][z] in view[n] { InBucket(view[n], buckets[n][z]); }
    }
  }

  lemma ShapeOf(depth: nat, position: Bid -> int, buckets: seq<Bucket<Bid, Value>>, view: seq<Bucket<Bid, Value>>,
                stash: map<Bid, Box<Value>>, contents: map<Bid, Value>, open: set<int>)
    requires Inv(depth, position, view, stash, contents, open) && Covers(depth, position, buckets, view, stash, open)
    ensures |buckets| == |view| == Pow2(depth + 1) - 1
  {
  }

  /** Two buckets on the path of an id, one of them on the path to a leaf: the
      higher one is on that path too. */
  lemma AncestorOnPath(depth: nat, position: Bid -> int, leaf: int, k: nat, id: Bid, m: int) returns (j: nat)
    requires 0 <= leaf < Pow2(depth) && k <= depth && OnPath(depth, position, id, NodeAt(depth, leaf, k))
    requires OnPath(depth, position, id, m) && Higher(depth, m, NodeAt(depth, leaf, k))
    ensures k < j <= depth && m == NodeAt(depth, leaf, j)
    ensures 0 <= m && m + 1 < Pow2(depth + 1) && HeightOf(depth, m + 1) == j
  {
    j := HeightOf(depth, m + 1);
    var p, q := position(id) + Pow2(depth), leaf + Pow2(depth);
    PathBucket(depth, leaf, k);
    ClimbAdd(p, k, j - k);
    ClimbAdd(q, k, j - k);
  }

  lemma ReachedOnPath(depth: nat, position: Bid -> int, leaf: int, k: nat, open: set<int>)
    requires 0 <= leaf < Pow2(depth) && k <= depth
    requires forall j :: k < j <= depth ==> NodeAt(depth, leaf, j) in open
    ensures Reached(depth, position, open, NodeAt(depth, leaf, k))
  {
    hide OnPath, NodeAt, Higher;
    var n := NodeAt(depth, leaf, k);
    forall id, m | OnPath(depth, position, id, n) && OnPath(depth, position, id, m) && Higher(depth, m, n)
      ensures m in open {
      var j := AncestorOnPath(depth, position, leaf, k, id, m);
    }
  }

  // ----- rewriting -----

  /** The buckets in open are rewritten, the others untouched. */
  ghost predicate Rewritten(b: seq<Bucket<Bid, Value>>, v: seq<Bucket<Bid, Value>>,
                            b': seq<Bucket<Bid, Value>>, v': seq<Bucket<Bid, Value>>, open: set<int>) {
    && |b'| == |b| && |v'| == |v| && |b| == |v|
    && forall n :: 0 <= n < |b| ==> if n in open then b'[n] == v'[n] else b'[n] == b[n] && v'[n] == v[n]
  }

  lemma NothingRewritten(b: seq<Bucket<Bid, Value>>, v: seq<Bucket<Bid, Value>>)
    requires |b| == |v|
    ensures forall open: set<int> :: open == {} ==> Rewritten(b, v, b, v, open)
  {
  }

  lemma RewrittenMore(b0: seq<Bucket<Bid, Value>>, v0: seq<Bucket<Bid, Value>>, b1: seq<Bucket<Bid, Value>>,
                      v1: seq<Bucket<Bid, Value>>,
                      b2: seq<Bucket<Bid, Value>>, v2: seq<Bucket<Bid, Value>>, x: set<int>, y: set<int>)
    requires Rewritten(b0, v0, b1, v1, x) && Rewritten(b1, v1, b2, v2, y)
    ensures Rewritten(b0, v0, b2, v2, x + y)
  {
  }

  lemma RewrittenSingle(b: seq<Bucket<Bid, Value>>, v: seq<Bucket<Bid, Value>>,
                        b': seq<Bucket<Bid, Value>>, v': seq<Bucket<Bid, Value>>, open: set<int>)
    requires Rewritten(b, v, b', v', open)
    ensures b == v ==> b' == v'
    ensures b' == v' <==> forall n :: 0 <= n < |b| && n !in open ==> b[n] == v[n]
  {
    if forall n :: 0 <= n < |b| && n !in open ==> b[n] == v[n] {
      assert forall n :: 0 <= n < |b'| ==> b'[n] == v'[n];
    }
  }

  /** The root takes everything that is left, or is filled. */
  lemma RootTakesAll(depth: nat, position: Bid -> int, view: seq<Bucket<Bid, Value>>, stash: map<Bid, Box<Value>>,
                     contents: map<Bid, Value>, open: set<int>, leaf: int, chosen: seq<Bid>, node: int)
    requires Inv(depth, position, view, stash, contents, open) && 0 <= leaf < Pow2(depth)
    requires |chosen| < Z ==> forall id :: id in stash && OnPath(depth, position, id, node) ==> id in chosen
    ensures node == 0 && |chosen| < Z ==> forall id :: id in stash ==> id in chosen
  {
    hide Inv, OnPath;
    AllMeetAtRoot(depth, position, view, stash, contents, open, leaf);
  }

  // ----- single reads and writes -----

  lemma StashAgrees(depth: nat, position: Bid -> int, view: seq<Bucket<Bid, Value>>, stash: map<Bid, Box<Value>>,
                    contents: map<Bid, Value>, open: set<int>, id: Bid)
    requires Inv(depth, position, view, stash, contents, open) && id in stash
    ensures id in contents && contents[id] == stash[id].value
  {
  }

  /** With its path fetched, an id is dropped nowhere. */
  lemma DroppedNothing(depth: nat, position: Bid -> int, view: seq<Bucket<Bid, Value>>, stash: map<Bid, Box<Value>>,
                       contents: map<Bid, Value>, open: set<int>, id: Bid)
    requires forall m :: 0 <= m < |view| && m !in open ==> !Has(view[m], id)
    ensures Dropped(view, open, id) == view
  {
    hide Drop;
    forall n | 0 <= n < |view| ensures Dropped(view, open, id)[n] == view[n] { DropIs(view[n], id); }
  }

  lemma NothingShown(depth: nat, position: Bid -> int, buckets: seq<Bucket<Bid, Value>>, view: seq<Bucket<Bid, Value>>)
    requires Inv(depth, position, view, map[], map[], {}) && Covers(depth, position, buckets, view, map[], {})
    ensures Inv(depth, position, buckets, map[], map[], {})
  {
    hide OnPath, Higher;
    OnlyContents(depth, position, view, map[], map[]);
    forall n | 0 <= n < |buckets| ensures buckets[n] == [] {
      assert Layer(depth, position, buckets[n], view[n], view, map[], {}, n);
      forall m | 0 <= m < |view| ensures view[m] == [] {
        assert |view[m]| > 0 ==> Has(view[m], view[m][0].id);
      }
      forall id ensures !Buried(depth, position, view, map[], {}, id, n) {
      }
      assert |buckets[n]| > 0 ==>
        buckets[n][0] in view[n] || Buried(depth, position, view, map[], {}, buckets[n][0].id, n);
    }
    InitialInv(depth, position, buckets);
  }

  // ----- batches -----

  /** The ids and positions of the items. */
  ghost function Turns(items: seq<(Bid, Value, int)>): seq<(Bid, int)> {
    seq(|items|, i requires 0 <= i < |items| => (items[i].0, items[i].2))
  }

  ghost function WrittenIds(turns: seq<(Bid, int)>, i: nat): set<Bid>
    requires i <= |turns|
  {
    set t | t in turns[..i] :: t.0
  }

  ghost predicate Positions(depth: nat, turns: seq<(Bid, int)>) {
    forall i :: 0 <= i < |turns| ==> 0 <= turns[i].1 < Pow2(depth)
  }

  /** The leaves whose paths have been fetched before turn i of a batch, from the
      buckets and the stashed ids it starts with. */
  ghost function Fetches(depth: nat, buckets: seq<Bucket<Bid, Value>>, ids: set<Bid>, turns: seq<(Bid, int)>,
                         writes: bool, i: nat): (l: set<int>)
    requires i <= |turns| && Positions(depth, turns)
    ensures Leaves(depth, l)
    decreases i, 0
  {
    if i == 0 then {}
    else if StashedAt(depth, buckets, ids, turns, writes, i - 1, Bare(turns[i - 1].1)) then
      Fetches(depth, buckets, ids, turns, writes, i - 1)
    else Fetches(depth, buckets, ids, turns, writes, i - 1) + {turns[i - 1].1}
  }

  /** An id is in the stash at turn i. */
  ghost predicate StashedAt(depth: nat, buckets: seq<Bucket<Bid, Value>>, ids: set<Bid>, turns: seq<(Bid, int)>,
                            writes: bool, i: nat, id: Bid)
    requires i <= |turns| && Positions(depth, turns)
    decreases i, 1
  {
    || id in ids
    || InBuckets(buckets, PathsOf(depth, Fetches(depth, buckets, ids, turns, writes, i)), id)
    || (writes && id in WrittenIds(turns, i))
  }

  /** The id whose value the i-th query of a batch is answered with. */
  ghost function Asked(depth: nat, buckets: seq<Bucket<Bid, Value>>, ids: set<Bid>, queries: seq<(Bid, int)>,
                       i: nat): Bid
    requires i < |queries| && Positions(depth, queries)
  {
    if StashedAt(depth, buckets, ids, queries, false, i, Bare(queries[i].1)) then Bare(queries[i].1) else queries[i].0
  }

  /** Every written id that is in a bucket is in one the batch fetches. */
  ghost predicate OnFetchedPaths(depth: nat, buckets: seq<Bucket<Bid, Value>>, ids: set<Bid>, turns: seq<(Bid, int)>)
    requires Positions(depth, turns)
  {
    var paths := PathsOf(depth, Fetches(depth, buckets, ids, turns, true, |turns|));
    forall n, id :: 0 <= n < |buckets| && n !in paths && id in WrittenIds(turns, |turns|) ==> !Has(buckets[n], id)
  }

  lemma FetchesStart(depth: nat, buckets: seq<Bucket<Bid, Value>>, ids: set<Bid>, turns: seq<(Bid, int)>, writes: bool)
    requires Positions(depth, turns)
    ensures Fetches(depth, buckets, ids, turns, writes, 0) == {}
  {
  }

  lemma FetchesStep(depth: nat, buckets: seq<Bucket<Bid, Value>>, ids: set<Bid>, turns: seq<(Bid, int)>, writes: bool,
                    i: nat)
    requires i < |turns| && Positions(depth, turns)
    ensures Fetches(depth, buckets, ids, turns, writes, i + 1) ==
            Fetches(depth, buckets, ids, turns, writes, i)
            + if StashedAt(depth, buckets, ids, turns, writes, i, Bare(turns[i].1)) then {} else {turns[i].1}
  {
  }

  lemma StashedIs(depth: nat, buckets: seq<Bucket<Bid, Value>>, ids: set<Bid>, turns: seq<(Bid, int)>, writes: bool,
                  i: nat,
                  leafs: set<int>, stash: map<Bid, Box<Value>>)
    requires i < |turns| && Positions(depth, turns) && leafs == Fetches(depth, buckets, ids, turns, writes, i)
    requires Held(if writes then ids + WrittenIds(turns, i) else ids, buckets, PathsOf(depth, leafs), stash)
    ensures StashedAt(depth, buckets, ids, turns, writes, i, Bare(turns[i].1)) <==> Bare(turns[i].1) in stash
  {
    hide InBuckets, PathsOf, Fetches;
  }

  lemma WrittenNext(turns: seq<(Bid, int)>, i: nat)
    requires i < |turns|
    ensures WrittenIds(turns, i + 1) == WrittenIds(turns, i) + {turns[i].0}
  {
    assert turns[..i + 1] == turns[..i] + [turns[i]];
  }

  lemma PutNext(contents: map<Bid, Value>, items: seq<(Bid, Value, int)>, i: nat)
    requires i < |items|
    ensures PutAll(contents, items[..i + 1]) == PutAll(contents, items[..i])[items[i].0 := items[i].1]
  {
    assert items[..i + 1][..i] == items[..i];
  }

  /** Outside the open buckets, view shows what view0 showed without the written ids. */
  ghost predicate Without(view0: seq<Bucket<Bid, Value>>, view: seq<Bucket<Bid, Value>>, open: set<int>,
                          written: set<Bid>) {
    && |view| == |view0|
    && forall n :: 0 <= n < |view| && n !in open ==> LessWritten(view0[n], view[n], written)
  }

  ghost predicate LessWritten(b0: Bucket<Bid, Value>, b: Bucket<Bid, Value>, written: set<Bid>) {
    && |b| <= |b0|
    && (forall x :: Has(b, x) <==> Has(b0, x) && x !in written)
    && ((forall x :: x in written ==> !Has(b0, x)) ==> b == b0)
    && ((exists x :: x in written && Has(b0, x)) ==> |b| < |b0|)
  }

  lemma LessWrittenDrop(b0: Bucket<Bid, Value>, b: Bucket<Bid, Value>, written: set<Bid>, id: Bid)
    requires LessWritten(b0, b, written)
    ensures LessWritten(b0, Drop(b, id), written + {id})
  {
    hide Drop, Has;
    DropIs(b, id);
    forall x ensures Has(Drop(b, id), x) <==> Has(b0, x) && x !in written + {id} { DropHas(b, id, x); }
    if exists x :: x in written + {id} && Has(b0, x) {
      var x :| x in written + {id} && Has(b0, x);
      if id !in written && x == id { assert Has(b, id); }
    }
  }

  lemma WithoutNothing(view: seq<Bucket<Bid, Value>>, turns: seq<(Bid, int)>)
    ensures forall open: set<int> :: Without(view, view, open, WrittenIds(turns, 0))
  {
  }

  lemma WithoutGrows(depth: nat, view0: seq<Bucket<Bid, Value>>, view: seq<Bucket<Bid, Value>>, leafs: set<int>,
                     pos: int, written: set<Bid>)
    requires Leaves(depth, leafs) && 0 <= pos < Pow2(depth) && Without(view0, view, PathsOf(depth, leafs), written)
    ensures Leaves(depth, leafs + {pos}) && Without(view0, view, PathsOf(depth, leafs + {pos}), written)
  {
    hide LessWritten, NodeAt;
    forall n | n in PathsOf(depth, leafs) ensures n in PathsOf(depth, leafs + {pos}) {
      var leaf, k := PathsOfWitness(depth, leafs, n);
      InPathsOf(depth, leafs + {pos}, leaf, k);
    }
  }

  lemma WithoutWrites(view0: seq<Bucket<Bid, Value>>, before: seq<Bucket<Bid, Value>>, view: seq<Bucket<Bid, Value>>,
                      open: set<int>, written: set<Bid>, id: Bid)
    requires Without(view0, before, open, written) && view == Dropped(before, open, id)
    ensures Without(view0, view, open, written + {id})
  {
    hide LessWritten, Drop;
    forall n | 0 <= n < |view| && n !in open ensures LessWritten(view0[n], view[n], written + {id}) {
      LessWrittenDrop(view0[n], before[n], written, id);
    }
  }

  lemma SingleExactly(b: seq<Bucket<Bid, Value>>, v: seq<Bucket<Bid, Value>>, b': seq<Bucket<Bid, Value>>,
                      v': seq<Bucket<Bid, Value>>,
                      view0: seq<Bucket<Bid, Value>>, open: set<int>, written: set<Bid>)
    requires Rewritten(b, v, b', v', open) && Without(view0, v, open, written) && b == view0
    ensures b' == v' <==> forall n, id :: 0 <= n < |b| && n !in open && id in written ==> !Has(b[n], id)
  {
    hide Rewritten;
    RewrittenSingle(b, v, b', v', open);
    forall n | 0 <= n < |b| && n !in open ensures b[n] == v[n] <==> forall id :: id in written ==> !Has(b[n], id) {
      assert LessWritten(b[n], v[n], written);
    }
  }

  /** A stored id is stashed or in a bucket on its own path. */
  lemma FoundOnPath(oram: Oram, id: Bid)
    requires oram.Valid() && id in oram.contents && 0 <= oram.position(id) < Pow2(oram.depth)
    ensures id in oram.stash || InBuckets(oram.buckets, PathsOf(oram.depth, {oram.position(id)}), id)
  {
    hide OnPath, PathsOf, NodeAt, Buried;
    assert Stored(oram.view, oram.stash, {}, id);
    if id !in oram.stash {
      var n :| 0 <= n < |oram.view| && Has(oram.view[n], id);
      ClosedNotStashed(oram.depth, oram.position, oram.view, oram.stash, oram.contents, {}, n);
      OpenOwnPath(oram.depth, oram.position, id, {});
      assert {} + {oram.position(id)} == {oram.position(id)};
      assert Layer(oram.depth, oram.position, oram.buckets[n], oram.view[n], oram.view, oram.stash, {}, n);
      var x := HasBlock(oram.view[n], id);
      InBucket(oram.buckets[n], x);
    }
  }

  /** The id that is the conversion of its own position is stashed at the turn
      after its own. */
  lemma StashedAfter(oram: Oram, queries: seq<(Bid, int)>)
    requires oram.Valid() && oram.Placed(queries) && |queries| >= 2
    requires queries[0].0 == Bare(queries[0].1) && queries[0].0 in oram.contents
    ensures StashedAt(oram.depth, oram.buckets, oram.stash.Keys, queries, false, 1, queries[0].0)
  {
    hide Oram.Valid, PathsOf;
    FoundOnPath(oram, queries[0].0);
    FetchesStart(oram.depth, oram.buckets, oram.stash.Keys, queries, false);
    FetchesStep(oram.depth, oram.buckets, oram.stash.Keys, queries, false, 0);
    NoPaths(oram.depth);
    assert {} + {queries[0].1} == {queries[0].1};
  }

  /** The block 1 is written; a batch then reads it and, at the same position, an
      id that was never written, and answers both with the value of block 1. */
  method MistakenRead() returns (results: seq<Value>, ghost contents: map<Bid, Value>)
    ensures contents == map[Bare(1) := Ind(7)]
    ensures results == [Ind(7), Ind(7)] && ValueOf(contents, Full(1, 0, 1, "w")) == Nothing
  {
    hide Oram.Valid, StashedAt, Inv;
    assert FloorLog2(2) == 1 + FloorLog2(1) == 1;
    assert Pow2(1) == 2 * Pow2(0) == 2;
    var oram := new Oram(8, _ => 1);
    var ok := oram.WriteBox(Bare(1), Ind(7), 1);
    var queries := [(Bare(1), 1), (Full(1, 0, 1, "w"), 1)];
    StashedAfter(oram, queries);
    contents := oram.contents;
    results := oram.BatchRead(queries);
  }

  /** Horus writes no bare ids, so it fetches the path of everything it writes. */
  lemma {:induction false} AllFetched(depth: nat, buckets: seq<Bucket<Bid, Value>>, ids: set<Bid>,
                                      turns: seq<(Bid, int)>, i: nat, j: nat)
    requires Positions(depth, turns) && j < i <= |turns|
    requires forall k :: 0 <= k < |turns| ==> !turns[k].0.Bare?
    requires forall id :: id in ids ==> !id.Bare?
    requires forall n, id :: 0 <= n < |buckets| && Has(buckets[n], id) ==> !id.Bare?
    ensures turns[j].1 in Fetches(depth, buckets, ids, turns, true, i)
  {
    hide Fetches, PathsOf;
    FetchesStep(depth, buckets, ids, turns, true, i - 1);
    if j < i - 1 {
      AllFetched(depth, buckets, ids, turns, i - 1, j);
    } else {
      BareNotStashed(depth, buckets, ids, turns, j);
    }
  }

  lemma BareNotStashed(depth: nat, buckets: seq<Bucket<Bid, Value>>, ids: set<Bid>, turns: seq<(Bid, int)>, i: nat)
    requires Positions(depth, turns) && i < |turns|
    requires forall k :: 0 <= k < |turns| ==> !turns[k].0.Bare?
    requires forall id :: id in ids ==> !id.Bare?
    requires forall n, id :: 0 <= n < |buckets| && Has(buckets[n], id) ==> !id.Bare?
    ensures !StashedAt(depth, buckets, ids, turns, true, i, Bare(turns[i].1))
  {
    hide Fetches, PathsOf;
    NoBareWritten(turns, i);
    var open, id := PathsOf(depth, Fetches(depth, buckets, ids, turns, true, i)), Bare(turns[i].1);
    forall n | 0 <= n < |buckets| ensures !Has(buckets[n], id) { assert id.Bare?; }
    assert !InBuckets(buckets, open, id);
  }

  lemma NoBareWritten(turns: seq<(Bid, int)>, i: nat)
    requires i <= |turns| && forall k :: 0 <= k < |turns| ==> !turns[k].0.Bare?
    ensures forall id :: id in WrittenIds(turns, i) ==> !id.Bare?
  {
    forall t | t in turns[..i] ensures !t.0.Bare? {
      var k :| 0 <= k < i && turns[..i][k] == t;
      assert turns[k] == t;
    }
  }

  /** Without bare ids a batch of writes leaves every id stored exactly once. */
  lemma NoBareOnPaths(oram: Oram, items: seq<(Bid, Value, int)>)
    requires oram.Valid() && oram.Single() && NoBare(oram.contents) && oram.Placed(Turns(items))
    requires forall i :: 0 <= i < |items| ==> !items[i].0.Bare?
    ensures OnFetchedPaths(oram.depth, oram.buckets, oram.stash.Keys, Turns(items))
  {
    hide OnPath, PathsOf, NodeAt, Fetches, BoxOk;
    var turns := Turns(items);
    var leafs := Fetches(oram.depth, oram.buckets, oram.stash.Keys, turns, true, |turns|);
    forall n, id | 0 <= n < |oram.buckets| && Has(oram.buckets[n], id)
      ensures !id.Bare? && OnPath(oram.depth, oram.position, id, n) {
      ClosedNotStashed(oram.depth, oram.position, oram.view, oram.stash, oram.contents, {}, n);
      OnlyContents(oram.depth, oram.position, oram.view, oram.stash, oram.contents);
    }
    forall id | id in oram.stash ensures !id.Bare? {
      StashAgrees(oram.depth, oram.position, oram.view, oram.stash, oram.contents, {}, id);
    }
    forall n, id | 0 <= n < |oram.buckets| && n !in PathsOf(oram.depth, leafs) && id in WrittenIds(turns, |turns|)
      ensures !Has(oram.buckets[n], id) {
      var j :| 0 <= j < |turns| && turns[j].0 == id;
      AllFetched(oram.depth, oram.buckets, oram.stash.Keys, turns, |turns|, j);
      OpenOwnPath(oram.depth, oram.position, id, leafs);
      assert leafs + {oram.position(id)} == leafs;
    }
  }
}

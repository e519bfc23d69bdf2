/** Buckets that hold old copies. A write whose path was not fetched leaves the
    previous copy of its block where it was; what a bucket shows is its blocks
    without such copies. An old copy is harmless while it is buried: the current
    one is stashed or higher on the same path, and paths are read from the root. */
module OramCopies {
  import opened Powers
  import opened HeapTree
  import opened OramState

  ghost predicate Higher(depth: nat, m: int, n: int) {
    && 0 <= m && m + 1 < Pow2(depth + 1) && 0 <= n && n + 1 < Pow2(depth + 1)
    && HeightOf(depth, m + 1) > HeightOf(depth, n + 1)
  }

  ghost predicate Shows<K(!new), V>(depth: nat, view: seq<Bucket<K, V>>, open: set<int>, id: K, m: int, n: int) {
    0 <= m < |view| && m !in open && Has(view[m], id) && Higher(depth, m, n)
  }

  /** The current version of id is reached before bucket n is. */
  ghost predicate Buried<K(!new), V>(depth: nat, position: K -> int, view: seq<Bucket<K, V>>, stash: map<K, Box<V>>,
                                     open: set<int>, id: K, n: int) {
    OnPath(depth, position, id, n) && (id in stash || exists m :: Shows(depth, view, open, id, m, n))
  }

  /** A bucket holds what it shows and buried copies. */
  ghost predicate Layer<K(!new), V>(depth: nat, position: K -> int, bucket: Bucket<K, V>, shown: Bucket<K, V>,
                                    view: seq<Bucket<K, V>>, stash: map<K, Box<V>>, open: set<int>, n: int) {
    && |bucket| <= Z
    && (forall z :: 0 <= z < |shown| ==> shown[z] in bucket)
    && (forall z :: 0 <= z < |bucket| ==>
          bucket[z] in shown || Buried(depth, position, view, stash, open, bucket[z].id, n))
  }

  ghost predicate Covers<K(!new), V>(depth: nat, position: K -> int, buckets: seq<Bucket<K, V>>,
                                     view: seq<Bucket<K, V>>,
                                     stash: map<K, Box<V>>, open: set<int>) {
    && |buckets| == |view|
    && forall n :: 0 <= n < |buckets| && n !in open ==>
         Layer(depth, position, buckets[n], view[n], view, stash, open, n)
  }

  lemma CoversItself<K(!new), V>(depth: nat, position: K -> int, buckets: seq<Bucket<K, V>>, stash: map<K, Box<V>>,
                                 open: set<int>)
    requires forall n :: 0 <= n < |buckets| ==> |buckets[n]| <= Z
    ensures Covers(depth, position, buckets, buckets, stash, open)
  {
  }

  // ----- reading from the root down -----

  /** All buckets above n on paths through n are open. */
  ghost predicate Reached<K(!new)>(depth: nat, position: K -> int, open: set<int>, n: int) {
    forall id, m :: OnPath(depth, position, id, n) && OnPath(depth, position, id, m) && Higher(depth, m, n) ==>
      m in open
  }

  /** Insert if absent, block by block. */
  ghost predicate Gathered<K(!new), V>(before: map<K, Box<V>>, bucket: Bucket<K, V>, after: map<K, Box<V>>) {
    && (forall id :: id in after <==> id in before || Has(bucket, id))
    && (forall id :: id in before ==> after[id] == before[id])
    && (forall id :: id in after && id !in before ==> Block(id, after[id]) in bucket)
  }

  lemma GatherStep<K(!new), V>(before: map<K, Box<V>>, bucket: Bucket<K, V>, z: nat, mid: map<K, Box<V>>,
                               after: map<K, Box<V>>)
    requires z < |bucket| && Gathered(before, bucket[..z], mid)
    requires after == if bucket[z].id in mid then mid else mid[bucket[z].id := bucket[z].box]
    ensures Gathered(before, bucket[..z + 1], after)
  {
    var x := bucket[z];
    assert bucket[..z + 1] == bucket[..z] + [x];
    forall id ensures Has(bucket[..z + 1], id) <==> Has(bucket[..z], id) || id == x.id {
      HasLast(bucket, z, id);
    }
    assert Block(x.id, x.box) == x;
  }

  lemma HasLast<K(!new), V>(bucket: Bucket<K, V>, z: nat, id: K)
    requires z < |bucket|
    ensures Has(bucket[..z + 1], id) <==> Has(bucket[..z], id) || id == bucket[z].id
  {
    if Has(bucket[..z], id) {
      var y :| 0 <= y < z && bucket[..z][y].id == id;
      assert bucket[..z + 1][y].id == id;
    }
    if id == bucket[z].id { assert bucket[..z + 1][z].id == id; }
    if Has(bucket[..z + 1], id) && id != bucket[z].id {
      var y :| 0 <= y < z + 1 && bucket[..z + 1][y].id == id;
      assert bucket[..z][y].id == id;
    }
  }

  lemma BuriedStashed<K(!new), V>(depth: nat, position: K -> int, view: seq<Bucket<K, V>>, stash: map<K, Box<V>>,
                                  contents: map<K, V>, open: set<int>, id: K, n: int)
    requires Inv(depth, position, view, stash, contents, open) && Reached(depth, position, open, n)
    requires Buried(depth, position, view, stash, open, id, n)
    ensures id in stash
  {
    hide OnPath, Higher;
    forall m ensures !Shows(depth, view, open, id, m, n) {
      if 0 <= m < |view| && m !in open { ClosedNotStashed(depth, position, view, stash, contents, open, m); }
    }
  }

  lemma InBucket<K(!new), V>(bucket: Bucket<K, V>, x: Block<K, V>)
    requires x in bucket
    ensures Has(bucket, x.id)
  {
    var z :| 0 <= z < |bucket| && bucket[z] == x;
    assert bucket[z].id == x.id;
  }

  lemma HasBlock<K(!new), V>(bucket: Bucket<K, V>, id: K) returns (x: Block<K, V>)
    requires Has(bucket, id)
    ensures x in bucket && x.id == id
  {
    var z :| 0 <= z < |bucket| && bucket[z].id == id;
    x := bucket[z];
  }

  /** A bucket reached from above adds to the stash exactly what it shows. */
  lemma GatheredShown<K(!new), V>(depth: nat, position: K -> int, bucket: Bucket<K, V>, view: seq<Bucket<K, V>>,
                                  stash: map<K, Box<V>>, contents: map<K, V>, open: set<int>, n: int,
                                  stash': map<K, Box<V>>)
    requires Inv(depth, position, view, stash, contents, open) && 0 <= n < |view| && n !in open
    requires Layer(depth, position, bucket, view[n], view, stash, open, n) && Reached(depth, position, open, n)
    requires Gathered(stash, bucket, stash')
    ensures Fetched(stash, view[n], stash')
  {
    hide OnPath, Higher, BoxOk, Buried;
    var shown := view[n];
    assert BucketOk(depth, position, shown, stash, contents, n);
    forall z | 0 <= z < |bucket| ensures bucket[z] in shown || bucket[z].id in stash {
      if bucket[z] !in shown { BuriedStashed(depth, position, view, stash, contents, open, bucket[z].id, n); }
    }
    forall id ensures id in stash' <==> id in stash || Has(shown, id) {
      if id in stash' && id !in stash {
        InBucket(shown, Block(id, stash'[id]));
      }
      if Has(shown, id) {
        var x := HasBlock(shown, id);
        InBucket(bucket, x);
      }
    }
    forall z | 0 <= z < |shown| ensures shown[z].id in stash' && stash'[shown[z].id] == shown[z].box {
      InBucket(bucket, shown[z]);
      var x := Block(shown[z].id, stash'[shown[z].id]);
      assert x in bucket && x in shown;
      SameBlock(shown, z, x);
    }
  }

  lemma SameBlock<K(!new), V>(shown: Bucket<K, V>, z: nat, x: Block<K, V>)
    requires z < |shown| && x in shown && x.id == shown[z].id
    requires forall y, z :: 0 <= y < z < |shown| ==> shown[y].id != shown[z].id
    ensures x == shown[z]
  {
  }

  lemma FetchCovers<K(!new), V>(depth: nat, position: K -> int, buckets: seq<Bucket<K, V>>, view: seq<Bucket<K, V>>,
                                stash: map<K, Box<V>>, open: set<int>, n: int, stash': map<K, Box<V>>)
    requires Covers(depth, position, buckets, view, stash, open) && 0 <= n < |view|
    requires Fetched(stash, view[n], stash')
    ensures Covers(depth, position, buckets, view, stash', open + {n})
  {
    hide OnPath, Higher;
    var open' := open + {n};
    forall k | 0 <= k < |buckets| && k !in open'
      ensures Layer(depth, position, buckets[k], view[k], view, stash', open', k) {
      assert Layer(depth, position, buckets[k], view[k], view, stash, open, k);
      forall z | 0 <= z < |buckets[k]|
        ensures buckets[k][z] in view[k] || Buried(depth, position, view, stash', open', buckets[k][z].id, k) {
        var id := buckets[k][z].id;
        if buckets[k][z] !in view[k] && id !in stash' {
          var m :| Shows(depth, view, open, id, m, k);
          assert Shows(depth, view, open', id, m, k);
        }
      }
    }
  }

  // ----- writing back -----

  /** Of two buckets on one path the higher is open if the lower is. */
  ghost predicate UpClosed<K(!new)>(depth: nat, position: K -> int, open: set<int>) {
    forall id, m, n ::
      n in open && OnPath(depth, position, id, n) && OnPath(depth, position, id, m) && Higher(depth, m, n) ==> m in open
  }

  lemma OpenIsHigher<K(!new)>(depth: nat, position: K -> int, open: set<int>, id: K, n: int, k: int)
    requires UpClosed(depth, position, open) && n in open && k !in open
    requires OnPath(depth, position, id, n) && OnPath(depth, position, id, k)
    ensures Higher(depth, n, k)
  {
  }

  lemma EvictCovers<K(!new), V>(depth: nat, position: K -> int, buckets: seq<Bucket<K, V>>, view: seq<Bucket<K, V>>,
                                stash: map<K, Box<V>>, open: set<int>, n: int, chosen: seq<K>, bucket: Bucket<K, V>,
                                stash': map<K, Box<V>>)
    requires Covers(depth, position, buckets, view, stash, open) && 0 <= n < |view| && n in open
    requires UpClosed(depth, position, open)
    requires Evicts(depth, position, stash, chosen, n) && Written(stash, chosen, bucket, stash')
    ensures Covers(depth, position, buckets[n := bucket], view[n := bucket], stash', open - {n})
  {
    hide OnPath, Higher, UpClosed;
    var view', open' := view[n := bucket], open - {n};
    forall k | 0 <= k < |buckets| && k !in open'
      ensures Layer(depth, position, buckets[n := bucket][k], view'[k], view', stash', open', k) {
      if k != n {
        assert Layer(depth, position, buckets[k], view[k], view, stash, open, k);
        forall z | 0 <= z < |buckets[k]|
          ensures buckets[k][z] in view[k] || Buried(depth, position, view', stash', open', buckets[k][z].id, k) {
          if buckets[k][z] !in view[k] {
            EvictBuried(depth, position, view, stash, open, n, chosen, bucket, stash', buckets[k][z].id, k);
          }
        }
      }
    }
  }

  lemma EvictBuried<K(!new), V>(depth: nat, position: K -> int, view: seq<Bucket<K, V>>, stash: map<K, Box<V>>,
                                open: set<int>,
                                n: int, chosen: seq<K>, bucket: Bucket<K, V>, stash': map<K, Box<V>>, id: K, k: int)
    requires 0 <= n < |view| && n in open && k !in open && UpClosed(depth, position, open)
    requires Evicts(depth, position, stash, chosen, n) && Written(stash, chosen, bucket, stash')
    requires Buried(depth, position, view, stash, open, id, k)
    ensures Buried(depth, position, view[n := bucket], stash', open - {n}, id, k)
  {
    hide OnPath, Higher, UpClosed;
    var view', open' := view[n := bucket], open - {n};
    if id in stash {
      if id in chosen {
        WrittenHas(stash, chosen, bucket, stash', id);
        OpenIsHigher(depth, position, open, id, n, k);
        assert Shows(depth, view', open', id, n, k);
      }
    } else {
      var m :| Shows(depth, view, open, id, m, k);
      assert Shows(depth, view', open', id, m, k);
    }
  }

  // ----- overwriting -----

  /** A bucket without the blocks of an id. */
  ghost function Drop<K(!new), V>(bucket: Bucket<K, V>, id: K): Bucket<K, V> {
    if bucket == [] then []
    else
      var init := Drop(bucket[..|bucket| - 1], id);
      if bucket[|bucket| - 1].id == id then init else init + [bucket[|bucket| - 1]]
  }

  lemma {:induction false} DropIs<K(!new), V>(bucket: Bucket<K, V>, id: K)
    ensures |Drop(bucket, id)| <= |bucket|
    ensures var d := Drop(bucket, id); forall z :: 0 <= z < |d| ==> d[z] in bucket && d[z].id != id
    ensures forall z :: 0 <= z < |bucket| && bucket[z].id != id ==> bucket[z] in Drop(bucket, id)
    ensures !Has(bucket, id) ==> Drop(bucket, id) == bucket
    ensures Has(bucket, id) ==> |Drop(bucket, id)| < |bucket|
  {
    if bucket != [] {
      var init, last := bucket[..|bucket| - 1], bucket[|bucket| - 1];
      DropIs(init, id);
      assert bucket == init + [last];
      HasLast(bucket, |bucket| - 1, id);
      assert bucket[..|bucket|] == bucket;
    }
  }

  lemma {:induction false} DropDistinct<K(!new), V>(bucket: Bucket<K, V>, id: K)
    requires forall y, z :: 0 <= y < z < |bucket| ==> bucket[y].id != bucket[z].id
    ensures var d := Drop(bucket, id); forall y, z :: 0 <= y < z < |d| ==> d[y].id != d[z].id
  {
    if bucket != [] {
      var init := bucket[..|bucket| - 1];
      DropDistinct(init, id);
      DropIs(init, id);
      var d := Drop(init, id);
      forall y | 0 <= y < |d| ensures d[y].id != bucket[|bucket| - 1].id {
        assert d[y] in d && d[y] in init;
      }
    }
  }

  /** What the closed buckets show once id is written in the stash. */
  ghost function Dropped<K(!new), V>(view: seq<Bucket<K, V>>, open: set<int>, id: K): seq<Bucket<K, V>> {
    seq(|view|, n requires 0 <= n < |view| => if n in open then view[n] else Drop(view[n], id))
  }

  lemma DropHas<K(!new), V>(bucket: Bucket<K, V>, id: K, x: K)
    ensures Has(Drop(bucket, id), x) <==> Has(bucket, x) && x != id
  {
    DropIs(bucket, id);
    if Has(bucket, x) && x != id {
      var b := HasBlock(bucket, x);
      InBucket(Drop(bucket, id), b);
    }
    if Has(Drop(bucket, id), x) {
      var b := HasBlock(Drop(bucket, id), x);
      InBucket(bucket, b);
    }
  }

  lemma DropBucketOk<K(!new), V>(depth: nat, position: K -> int, bucket: Bucket<K, V>, stash: map<K, Box<V>>,
                                 contents: map<K, V>, id: K, value: V, box: Box<V>, n: int)
    requires BucketOk(depth, position, bucket, stash, contents, n)
    ensures BucketOk(depth, position, Drop(bucket, id), stash[id := box], contents[id := value], n)
  {
    hide OnPath, BoxOk, Drop;
    DropIs(bucket, id);
    DropDistinct(bucket, id);
    var d := Drop(bucket, id);
    forall z | 0 <= z < |d|
      ensures BoxOk(depth, position, contents[id := value], d[z].id, d[z].box) && OnPath(depth, position, d[z].id, n)
      ensures d[z].id !in stash[id := box] {
      var x := d[z];
      assert x in d;
      assert x in bucket;
      var y :| 0 <= y < |bucket| && bucket[y] == x;
      SetEntry(depth, position, position, contents, id, value, x.id, x.box, n);
    }
  }

  /** Writing an id in the stash, wherever its previous copy is. */
  lemma OverwriteKeeps<K(!new), V>(depth: nat, position: K -> int, view: seq<Bucket<K, V>>, stash: map<K, Box<V>>,
                                   contents: map<K, V>, open: set<int>, id: K, value: V)
    requires Inv(depth, position, view, stash, contents, open) && 0 <= position(id) < Pow2(depth)
    ensures var box := Box(value, position(id));
            Inv(depth, position, Dropped(view, open, id), stash[id := box], contents[id := value], open)
  {
    hide OnPath, Drop, Has, BucketOk;
    var box := Box(value, position(id));
    var view', stash', contents' := Dropped(view, open, id), stash[id := box], contents[id := value];
    forall n | 0 <= n < |view| ensures |view'[n]| <= Z { DropIs(view[n], id); }
    forall x | x in stash' ensures BoxOk(depth, position, contents', x, stash'[x]) {
      if x != id { SetEntry(depth, position, position, contents, id, value, x, stash[x], 0); }
    }
    hide BoxOk;
    forall n | 0 <= n < |view'| && n !in open ensures BucketOk(depth, position, view'[n], stash', contents', n) {
      DropBucketOk(depth, position, view[n], stash, contents, id, value, stash'[id], n);
    }
    forall i, j | 0 <= i < |view'| && 0 <= j < |view'| && i != j && i !in open && j !in open
      ensures Apart(view'[i], view'[j]) {
      assert Apart(view[i], view[j]);
      forall x ensures !(Has(view'[i], x) && Has(view'[j], x)) {
        DropHas(view[i], id, x);
        DropHas(view[j], id, x);
      }
    }
    forall x | x in contents' ensures Stored(view', stash', open, x) {
      if x !in stash' {
        assert Stored(view, stash, open, x);
        var n :| 0 <= n < |view| && n !in open && Has(view[n], x);
        DropHas(view[n], id, x);
        assert Has(view'[n], x);
      }
    }
  }

  lemma OverwriteBuried<K(!new), V>(depth: nat, position: K -> int, view: seq<Bucket<K, V>>, stash: map<K, Box<V>>,
                                    open: set<int>, id: K, box: Box<V>, x: K, k: int)
    requires Buried(depth, position, view, stash, open, x, k)
    ensures Buried(depth, position, Dropped(view, open, id), stash[id := box], open, x, k)
  {
    hide OnPath, Higher, Has, Drop;
    if x !in stash[id := box] {
      var m :| Shows(depth, view, open, x, m, k);
      DropHas(view[m], id, x);
      assert Shows(depth, Dropped(view, open, id), open, x, m, k);
    }
  }

  /** The previous copy of the written id is buried by the stash. */
  lemma OverwriteCovers<K(!new), V>(depth: nat, position: K -> int, buckets: seq<Bucket<K, V>>, view: seq<Bucket<K, V>>,
                                    stash: map<K, Box<V>>, contents: map<K, V>, open: set<int>, id: K, box: Box<V>)
    requires Inv(depth, position, view, stash, contents, open) && Covers(depth, position, buckets, view, stash, open)
    ensures Covers(depth, position, buckets, Dropped(view, open, id), stash[id := box], open)
  {
    hide OnPath, Drop, Buried, BoxOk;
    var view', stash' := Dropped(view, open, id), stash[id := box];
    forall k | 0 <= k < |buckets| && k !in open
      ensures Layer(depth, position, buckets[k], view'[k], view', stash', open, k) {
      assert Layer(depth, position, buckets[k], view[k], view, stash, open, k);
      DropIs(view[k], id);
      forall z | 0 <= z < |view'[k]| ensures view'[k][z] in buckets[k] {
        assert view'[k][z] in Drop(view[k], id);
        assert view'[k][z] in view[k];
      }
      forall z | 0 <= z < |buckets[k]|
        ensures buckets[k][z] in view'[k] || Buried(depth, position, view', stash', open, buckets[k][z].id, k) {
        var x := buckets[k][z];
        if x !in view'[k] {
          if x in view[k] {
            ShownIsBuried(depth, position, view, stash, contents, open, k, x, view', box);
          } else {
            OverwriteBuried(depth, position, view, stash, open, id, box, x.id, k);
          }
        }
      }
    }
  }

  lemma ShownIsBuried<K(!new), V>(depth: nat, position: K -> int, view: seq<Bucket<K, V>>, stash: map<K, Box<V>>,
                                  contents: map<K, V>, open: set<int>, k: int, x: Block<K, V>, view': seq<Bucket<K, V>>,
                                  box: Box<V>)
    requires Inv(depth, position, view, stash, contents, open) && 0 <= k < |view| && k !in open && x in view[k]
    ensures Buried(depth, position, view', stash[x.id := box], open, x.id, k)
  {
    hide OnPath, BoxOk;
    ClosedNotStashed(depth, position, view, stash, contents, open, k);
    InBucket(view[k], x);
  }

  // ----- giving up in the middle -----

  /** Everything in the open buckets is on its path and has been copied. */
  ghost predicate Copied<K(!new), V>(depth: nat, position: K -> int, buckets: seq<Bucket<K, V>>, stash: map<K, Box<V>>,
                                     open: set<int>) {
    forall n :: n in open && 0 <= n < |buckets| ==>
      |buckets[n]| <= Z
      && forall z :: 0 <= z < |buckets[n]| ==> buckets[n][z].id in stash && OnPath(depth, position, buckets[n][z].id, n)
  }

  /** What the buckets show when the fetched ones are not rewritten. */
  ghost function Abandoned<K(!new), V>(view: seq<Bucket<K, V>>, open: set<int>): seq<Bucket<K, V>> {
    seq(|view|, n requires 0 <= n < |view| => if n in open then [] else view[n])
  }

  lemma AbandonKeeps<K(!new), V>(depth: nat, position: K -> int, view: seq<Bucket<K, V>>, stash: map<K, Box<V>>,
                                 contents: map<K, V>, open: set<int>)
    requires Inv(depth, position, view, stash, contents, open)
    ensures Inv(depth, position, Abandoned(view, open), stash, contents, {})
  {
    hide OnPath, BoxOk;
    var view' := Abandoned(view, open);
    forall n | 0 <= n < |view'| ensures BucketOk(depth, position, view'[n], stash, contents, n) {
    }
    forall i, j | 0 <= i < |view'| && 0 <= j < |view'| && i != j ensures Apart(view'[i], view'[j]) {
      if i !in open && j !in open { assert Apart(view[i], view[j]); }
    }
    forall x | x in contents ensures Stored(view', stash, {}, x) {
      assert Stored(view, stash, open, x);
      if x !in stash {
        var n :| 0 <= n < |view| && n !in open && Has(view[n], x);
        assert Has(view'[n], x);
      }
    }
  }

  lemma AbandonCovers<K(!new), V>(depth: nat, position: K -> int, buckets: seq<Bucket<K, V>>, view: seq<Bucket<K, V>>,
                                  stash: map<K, Box<V>>, open: set<int>)
    requires Covers(depth, position, buckets, view, stash, open) && Copied(depth, position, buckets, stash, open)
    ensures Covers(depth, position, buckets, Abandoned(view, open), stash, {})
  {
    hide OnPath, Higher, Has;
    var view' := Abandoned(view, open);
    forall k | 0 <= k < |buckets| ensures Layer(depth, position, buckets[k], view'[k], view', stash, {}, k) {
      if k !in open {
        assert Layer(depth, position, buckets[k], view[k], view, stash, open, k);
        forall z | 0 <= z < |buckets[k]|
          ensures buckets[k][z] in view'[k] || Buried(depth, position, view', stash, {}, buckets[k][z].id, k) {
          var id := buckets[k][z].id;
          if buckets[k][z] !in view[k] && id !in stash {
            var m :| Shows(depth, view, open, id, m, k);
            assert Shows(depth, view', {}, id, m, k);
          }
        }
      }
    }
  }
}

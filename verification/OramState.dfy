/** The state of a Path ORAM: a tree of buckets and a stash that together must
    behave as one map. position gives the leaf of every id. A bucket is open
    while its stored blocks are stale: copied to the stash and not rewritten. */
module OramState {
  import opened Powers
  import opened HeapTree

  const Z := 4

  datatype Box<V> = Box(value: V, pos: int)

  datatype Block<K, V> = Block(id: K, box: Box<V>)

  type Bucket<K, V> = seq<Block<K, V>>

  ghost predicate Has<K(!new), V>(bucket: Bucket<K, V>, id: K) {
    exists z :: 0 <= z < |bucket| && bucket[z].id == id
  }

  /** Bucket n lies on the path to the leaf of id. */
  ghost predicate OnPath<K(!new)>(depth: nat, position: K -> int, id: K, n: int) {
    && 0 <= n && n + 1 < Pow2(depth + 1) && 0 <= position(id) < Pow2(depth)
    && Climb(position(id) + Pow2(depth), HeightOf(depth, n + 1)) == n + 1
  }

  ghost predicate BoxOk<K(!new), V>(depth: nat, position: K -> int, contents: map<K, V>, id: K, box: Box<V>) {
    && 0 <= position(id) < Pow2(depth) && box.pos == position(id)
    && id in contents && contents[id] == box.value
  }

  ghost predicate BucketOk<K(!new), V>(depth: nat, position: K -> int, bucket: Bucket<K, V>, stash: map<K, Box<V>>,
                                       contents: map<K, V>, n: int) {
    && (forall z :: 0 <= z < |bucket| ==>
          && BoxOk(depth, position, contents, bucket[z].id, bucket[z].box)
          && OnPath(depth, position, bucket[z].id, n)
          && bucket[z].id !in stash)
    && (forall y, z :: 0 <= y < z < |bucket| ==> bucket[y].id != bucket[z].id)
  }

  ghost predicate Shape<K(!new), V>(depth: nat, buckets: seq<Bucket<K, V>>) {
    && |buckets| == Pow2(depth + 1) - 1
    && forall n :: 0 <= n < |buckets| ==> |buckets[n]| <= Z
  }

  ghost predicate Apart<K(!new), V>(a: Bucket<K, V>, b: Bucket<K, V>) {
    forall id :: !(Has(a, id) && Has(b, id))
  }

  ghost predicate Disjoint<K(!new), V>(buckets: seq<Bucket<K, V>>, open: set<int>) {
    forall m, n :: 0 <= m < |buckets| && 0 <= n < |buckets| && m != n && m !in open && n !in open ==>
      Apart(buckets[m], buckets[n])
  }

  ghost predicate Stored<K(!new), V>(buckets: seq<Bucket<K, V>>, stash: map<K, Box<V>>, open: set<int>, id: K) {
    id in stash || exists n :: 0 <= n < |buckets| && n !in open && Has(buckets[n], id)
  }

  /** Stash and closed buckets hold each id of contents exactly once, with its
      value, and every closed bucket holds only ids whose path it is on. */
  ghost predicate Inv<K(!new), V>(depth: nat, position: K -> int, buckets: seq<Bucket<K, V>>, stash: map<K, Box<V>>,
                      contents: map<K, V>, open: set<int>) {
    && Shape(depth, buckets)
    && (forall id :: id in stash ==> BoxOk(depth, position, contents, id, stash[id]))
    && (forall n :: 0 <= n < |buckets| && n !in open ==> BucketOk(depth, position, buckets[n], stash, contents, n))
    && Disjoint(buckets, open)
    && (forall id :: id in contents ==> Stored(buckets, stash, open, id))
  }

  /** Every bucket on the path of id is open. */
  ghost predicate PathOpen<K(!new)>(depth: nat, position: K -> int, id: K, open: set<int>) {
    forall n :: OnPath(depth, position, id, n) ==> n in open
  }

  lemma InitialInv<K(!new), V>(depth: nat, position: K -> int, buckets: seq<Bucket<K, V>>)
    requires |buckets| == Pow2(depth + 1) - 1 && forall n :: 0 <= n < |buckets| ==> buckets[n] == []
    ensures Inv(depth, position, buckets, map[], map[], {})
  {
  }

  // ----- fetching a bucket -----

  /** The stash after a bucket was read into it. */
  ghost predicate Fetched<K(!new), V>(stash: map<K, Box<V>>, bucket: Bucket<K, V>, stash': map<K, Box<V>>) {
    && (forall id :: id in stash' <==> id in stash || Has(bucket, id))
    && (forall id :: id in stash ==> stash'[id] == stash[id])
    && (forall z :: 0 <= z < |bucket| ==> bucket[z].id in stash' && stash'[bucket[z].id] == bucket[z].box)
  }

  lemma FetchKeeps<K(!new), V>(depth: nat, position: K -> int, buckets: seq<Bucket<K, V>>, stash: map<K, Box<V>>,
                   contents: map<K, V>, open: set<int>, n: int, stash': map<K, Box<V>>)
    requires Inv(depth, position, buckets, stash, contents, open) && 0 <= n < |buckets| && n !in open
    requires Fetched(stash, buckets[n], stash')
    ensures Inv(depth, position, buckets, stash', contents, open + {n})
  {
    hide OnPath, BoxOk;
    var open' := open + {n};
    forall id | id in stash' ensures BoxOk(depth, position, contents, id, stash'[id]) {
      if id !in stash {
        assert BucketOk(depth, position, buckets[n], stash, contents, n);
        var z :| 0 <= z < |buckets[n]| && buckets[n][z].id == id;
      }
    }
    forall m | 0 <= m < |buckets| && m !in open' ensures BucketOk(depth, position, buckets[m], stash', contents, m) {
      forall z | 0 <= z < |buckets[m]| ensures buckets[m][z].id !in stash' {
        assert Has(buckets[m], buckets[m][z].id);
        assert Apart(buckets[m], buckets[n]);
      }
    }
    forall id | id in contents ensures Stored(buckets, stash', open', id) {
      assert Stored(buckets, stash, open, id);
      if id !in stash' {
        var m :| 0 <= m < |buckets| && m !in open && Has(buckets[m], id);
        assert m != n;
      }
    }
  }

  // ----- writing a bucket back -----

  ghost predicate Evicts<K(!new), V>(depth: nat, position: K -> int, stash: map<K, Box<V>>, chosen: seq<K>, n: int) {
    && |chosen| <= Z
    && (forall z :: 0 <= z < |chosen| ==> chosen[z] in stash && OnPath(depth, position, chosen[z], n))
    && (forall y, z :: 0 <= y < z < |chosen| ==> chosen[y] != chosen[z])
  }

  ghost predicate Written<K(!new), V>(stash: map<K, Box<V>>, chosen: seq<K>, bucket: Bucket<K, V>,
                                      stash': map<K, Box<V>>) {
    && |bucket| == |chosen|
    && (forall z :: 0 <= z < |chosen| ==> chosen[z] in stash && bucket[z] == Block(chosen[z], stash[chosen[z]]))
    && (forall id :: id in stash' <==> id in stash && id !in chosen)
    && (forall id :: id in stash' ==> stash'[id] == stash[id])
  }

  lemma WrittenHas<K(!new), V>(stash: map<K, Box<V>>, chosen: seq<K>, bucket: Bucket<K, V>, stash': map<K, Box<V>>,
                               id: K)
    requires Written(stash, chosen, bucket, stash')
    ensures Has(bucket, id) <==> id in chosen
  {
    if id in chosen {
      var z :| 0 <= z < |chosen| && chosen[z] == id;
      assert bucket[z].id == id;
    }
  }

  lemma EvictKeeps<K(!new), V>(depth: nat, position: K -> int, buckets: seq<Bucket<K, V>>, stash: map<K, Box<V>>,
                   contents: map<K, V>, open: set<int>, n: int, chosen: seq<K>, bucket: Bucket<K, V>,
                   stash': map<K, Box<V>>)
    requires Inv(depth, position, buckets, stash, contents, open) && 0 <= n < |buckets| && n in open
    requires Evicts(depth, position, stash, chosen, n) && Written(stash, chosen, bucket, stash')
    ensures Inv(depth, position, buckets[n := bucket], stash', contents, open - {n})
  {
    hide OnPath, BoxOk;
    var buckets', open' := buckets[n := bucket], open - {n};
    forall id ensures Has(bucket, id) <==> id in chosen { WrittenHas(stash, chosen, bucket, stash', id); }
    forall m | 0 <= m < |buckets'| && m !in open' ensures BucketOk(depth, position, buckets'[m], stash', contents, m) {
      if m != n { assert BucketOk(depth, position, buckets[m], stash, contents, m); }
    }
    hide BucketOk;
    forall i, j | 0 <= i < |buckets'| && 0 <= j < |buckets'| && i != j && i !in open' && j !in open'
      ensures Apart(buckets'[i], buckets'[j]) {
      if i == n {
        ClosedNotStashed(depth, position, buckets, stash, contents, open, j);
      } else if j == n {
        ClosedNotStashed(depth, position, buckets, stash, contents, open, i);
      } else {
        assert Apart(buckets[i], buckets[j]);
      }
    }
    forall id | id in contents ensures Stored(buckets', stash', open', id) {
      assert Stored(buckets, stash, open, id);
      if id in stash {
        if id in chosen { assert Has(buckets'[n], id); }
      } else {
        var m :| 0 <= m < |buckets| && m !in open && Has(buckets[m], id);
        assert Has(buckets'[m], id);
      }
    }
  }

  lemma ClosedNotStashed<K(!new), V>(depth: nat, position: K -> int, buckets: seq<Bucket<K, V>>, stash: map<K, Box<V>>,
                         contents: map<K, V>, open: set<int>, m: int)
    requires Inv(depth, position, buckets, stash, contents, open) && 0 <= m < |buckets| && m !in open
    ensures forall id :: Has(buckets[m], id) ==> id !in stash && OnPath(depth, position, id, m)
  {
    hide OnPath, BoxOk;
    assert BucketOk(depth, position, buckets[m], stash, contents, m);
  }

  // ----- reading and writing through the stash -----

  /** With its whole path open, an id is stored in the stash or nowhere. */
  lemma StashDecides<K(!new), V>(depth: nat, position: K -> int, buckets: seq<Bucket<K, V>>, stash: map<K, Box<V>>,
                     contents: map<K, V>, open: set<int>, id: K)
    requires Inv(depth, position, buckets, stash, contents, open) && PathOpen(depth, position, id, open)
    ensures id in contents <==> id in stash
    ensures id in stash ==> contents[id] == stash[id].value
    ensures forall m :: 0 <= m < |buckets| && m !in open ==> !Has(buckets[m], id)
  {
    hide OnPath;
    forall m | 0 <= m < |buckets| && m !in open ensures !Has(buckets[m], id) {
      ClosedNotStashed(depth, position, buckets, stash, contents, open, m);
    }
    if id in contents { assert Stored(buckets, stash, open, id); }
  }

  lemma SetEntry<K(!new), V>(depth: nat, position: K -> int, position': K -> int, contents: map<K, V>, id: K, value: V,
                             x: K, box: Box<V>, n: int)
    requires x != id && position'(x) == position(x)
    ensures BoxOk(depth, position, contents, x, box) ==> BoxOk(depth, position', contents[id := value], x, box)
    ensures OnPath(depth, position, x, n) ==> OnPath(depth, position', x, n)
  {
  }

  lemma SetBucket<K(!new), V>(depth: nat, position: K -> int, position': K -> int, bucket: Bucket<K, V>,
                              stash: map<K, Box<V>>,
                              contents: map<K, V>, id: K, value: V, box: Box<V>, m: int)
    requires BucketOk(depth, position, bucket, stash, contents, m) && !Has(bucket, id)
    requires forall x :: x != id ==> position'(x) == position(x)
    ensures BucketOk(depth, position', bucket, stash[id := box], contents[id := value], m)
  {
    hide OnPath, BoxOk;
    forall z | 0 <= z < |bucket|
      ensures OnPath(depth, position', bucket[z].id, m)
      ensures BoxOk(depth, position', contents[id := value], bucket[z].id, bucket[z].box) {
      assert bucket[z].id != id by { assert !Has(bucket, id); }
      SetEntry(depth, position, position', contents, id, value, bucket[z].id, bucket[z].box, m);
    }
  }

  lemma NotInBucket<K(!new), V>(depth: nat, position: K -> int, buckets: seq<Bucket<K, V>>, stash: map<K, Box<V>>,
                                contents: map<K, V>, open: set<int>, id: K, m: int)
    requires Inv(depth, position, buckets, stash, contents, open) && (id in stash || id !in contents)
    requires 0 <= m < |buckets| && m !in open
    ensures !Has(buckets[m], id)
  {
    hide OnPath;
    assert BucketOk(depth, position, buckets[m], stash, contents, m);
  }

  /** A stashed or unknown id may get any value and any position. */
  lemma SetKeeps<K(!new), V>(depth: nat, position: K -> int, position': K -> int, buckets: seq<Bucket<K, V>>,
                             stash: map<K, Box<V>>,
                             contents: map<K, V>, open: set<int>, id: K, value: V)
    requires Inv(depth, position, buckets, stash, contents, open) && (id in stash || id !in contents)
    requires 0 <= position'(id) < Pow2(depth) && forall x :: x != id ==> position'(x) == position(x)
    ensures Inv(depth, position', buckets, stash[id := Box(value, position'(id))], contents[id := value], open)
  {
    hide OnPath, BucketOk, Has;
    var stash', contents' := stash[id := Box(value, position'(id))], contents[id := value];
    forall x | x in stash' ensures BoxOk(depth, position', contents', x, stash'[x]) {
      if x != id { SetEntry(depth, position, position', contents, id, value, x, stash[x], 0); }
    }
    forall m | 0 <= m < |buckets| && m !in open ensures BucketOk(depth, position', buckets[m], stash', contents', m) {
      NotInBucket(depth, position, buckets, stash, contents, open, id, m);
      SetBucket(depth, position, position', buckets[m], stash, contents, id, value, stash'[id], m);
    }
    forall x | x in contents' ensures Stored(buckets, stash', open, x) {
      if x != id { assert Stored(buckets, stash, open, x); }
    }
  }

  // ----- bulk placement -----

  lemma BoxOkGrows<K(!new), V>(depth: nat, position: K -> int, contents: map<K, V>, x: Block<K, V>, id: K, box: Box<V>)
    requires BoxOk(depth, position, contents, id, box) && x.id !in contents
    ensures BoxOk(depth, position, contents[x.id := x.box.value], id, box)
  {
  }

  lemma AppendHas<K(!new), V>(bucket: Bucket<K, V>, x: Block<K, V>, id: K)
    ensures Has(bucket + [x], id) <==> Has(bucket, id) || id == x.id
  {
    var b := bucket + [x];
    assert b[|bucket|].id == x.id;
    if Has(bucket, id) {
      var z :| 0 <= z < |bucket| && bucket[z].id == id;
      assert b[z].id == id;
    }
  }

  /** A bucket after the placement of x, in it or elsewhere. */
  lemma PlaceBucketOk<K(!new), V>(depth: nat, position: K -> int, bucket: Bucket<K, V>, stash: map<K, Box<V>>,
                                  contents: map<K, V>, x: Block<K, V>, n: int)
    requires BucketOk(depth, position, bucket, stash, contents, n) && x.id !in contents && x.id !in stash
    requires !Has(bucket, x.id)
    requires BoxOk(depth, position, contents[x.id := x.box.value], x.id, x.box)
    ensures BucketOk(depth, position, bucket, stash, contents[x.id := x.box.value], n)
    ensures OnPath(depth, position, x.id, n) ==>
      BucketOk(depth, position, bucket + [x], stash, contents[x.id := x.box.value], n)
  {
    hide OnPath, BoxOk;
    forall z | 0 <= z < |bucket|
      ensures BoxOk(depth, position, contents[x.id := x.box.value], bucket[z].id, bucket[z].box)
      ensures bucket[z].id != x.id {
      BoxOkGrows(depth, position, contents, x, bucket[z].id, bucket[z].box);
      assert Has(bucket, bucket[z].id);
    }
  }

  lemma PlaceKeeps<K(!new), V>(depth: nat, position: K -> int, buckets: seq<Bucket<K, V>>, stash: map<K, Box<V>>,
                   contents: map<K, V>, n: int, x: Block<K, V>)
    requires Inv(depth, position, buckets, stash, contents, {}) && 0 <= n < |buckets| && |buckets[n]| < Z
    requires x.id !in contents && BoxOk(depth, position, contents[x.id := x.box.value], x.id, x.box)
    requires OnPath(depth, position, x.id, n)
    ensures Inv(depth, position, buckets[n := buckets[n] + [x]], stash, contents[x.id := x.box.value], {})
  {
    hide OnPath, BoxOk;
    var b', contents' := buckets[n := buckets[n] + [x]], contents[x.id := x.box.value];
    OnlyContents(depth, position, buckets, stash, contents);
    forall id ensures Has(b'[n], id) <==> Has(buckets[n], id) || id == x.id { AppendHas(buckets[n], x, id); }
    forall id | id in stash ensures BoxOk(depth, position, contents', id, stash[id]) {
      BoxOkGrows(depth, position, contents, x, id, stash[id]);
    }
    forall m | 0 <= m < |b'| ensures BucketOk(depth, position, b'[m], stash, contents', m) {
      PlaceBucketOk(depth, position, buckets[m], stash, contents, x, m);
    }
    hide BucketOk, Has;
    forall i, j | 0 <= i < |b'| && 0 <= j < |b'| && i != j ensures Apart(b'[i], b'[j]) {
      assert Apart(buckets[i], buckets[j]);
    }
    forall id | id in contents' ensures Stored(b', stash, {}, id) {
      if id == x.id {
        assert Has(b'[n], id);
      } else {
        assert Stored(buckets, stash, {}, id);
        if id !in stash {
          var m :| 0 <= m < |buckets| && Has(buckets[m], id);
          assert Has(b'[m], id);
        }
      }
    }
  }

  lemma OnlyContents<K(!new), V>(depth: nat, position: K -> int, buckets: seq<Bucket<K, V>>, stash: map<K, Box<V>>,
                                 contents: map<K, V>)
    requires Inv(depth, position, buckets, stash, contents, {})
    ensures forall m, id :: 0 <= m < |buckets| && Has(buckets[m], id) ==> id in contents
    ensures forall id :: id in stash ==> id in contents
  {
    hide OnPath;
    forall m, id | 0 <= m < |buckets| && Has(buckets[m], id) ensures id in contents {
      assert BucketOk(depth, position, buckets[m], stash, contents, m);
    }
  }

  lemma StashKeeps<K(!new), V>(depth: nat, position: K -> int, buckets: seq<Bucket<K, V>>, stash: map<K, Box<V>>,
                   contents: map<K, V>, x: Block<K, V>)
    requires Inv(depth, position, buckets, stash, contents, {})
    requires x.id !in contents && BoxOk(depth, position, contents[x.id := x.box.value], x.id, x.box)
    ensures Inv(depth, position, buckets, stash[x.id := x.box], contents[x.id := x.box.value], {})
  {
    hide OnPath;
    var stash', contents' := stash[x.id := x.box], contents[x.id := x.box.value];
    forall m | 0 <= m < |buckets| ensures BucketOk(depth, position, buckets[m], stash', contents', m) {
      assert BucketOk(depth, position, buckets[m], stash, contents, m);
    }
    forall id | id in contents' ensures Stored(buckets, stash', {}, id) {
      if id != x.id { assert Stored(buckets, stash, {}, id); }
    }
  }

  // ----- paths -----

  /** The bucket k levels above the bottom on the path to a leaf. */
  function NodeAt(depth: nat, leaf: int, k: nat): int
    requires 0 <= leaf
  {
    Climb(leaf + Pow2(depth), k) - 1
  }

  /** Opening the whole path to a leaf opens every bucket that may hold an id placed there. */
  lemma PathMembers<K(!new)>(depth: nat, position: K -> int, id: K, open: set<int>)
    requires 0 <= position(id) < Pow2(depth)
    requires forall k :: 0 <= k <= depth ==> NodeAt(depth, position(id), k) in open
    ensures PathOpen(depth, position, id, open)
  {
    hide NodeAt, HeightOf;
    forall n | OnPath(depth, position, id, n) ensures n in open {
      OnPathIs(depth, position, id, n);
    }
  }

  lemma OnPathIs<K(!new)>(depth: nat, position: K -> int, id: K, n: int)
    requires OnPath(depth, position, id, n)
    ensures HeightOf(depth, n + 1) <= depth && n == NodeAt(depth, position(id), HeightOf(depth, n + 1))
  {
  }

  lemma PathBucket(depth: nat, leaf: int, k: nat)
    requires 0 <= leaf < Pow2(depth) && k <= depth
    ensures 0 <= NodeAt(depth, leaf, k) < Pow2(depth + 1) - 1
    ensures HeightOf(depth, NodeAt(depth, leaf, k) + 1) == k
  {
    PathHeight(depth, leaf + Pow2(depth), k);
  }

  /** All buckets on the paths to a set of leaves. */
  ghost function PathsOf(depth: nat, leaves: set<int>): set<int>
    requires forall x :: x in leaves ==> 0 <= x
  {
    set leaf, k | leaf in leaves && 0 <= k <= depth :: NodeAt(depth, leaf, k)
  }

  ghost predicate Leaves(depth: nat, leaves: set<int>) {
    forall x :: x in leaves ==> 0 <= x < Pow2(depth)
  }

  lemma InPathsOf(depth: nat, leaves: set<int>, leaf: int, k: nat)
    requires Leaves(depth, leaves) && leaf in leaves && k <= depth
    ensures NodeAt(depth, leaf, k) in PathsOf(depth, leaves)
  {
  }

  lemma PathsGrow(depth: nat, leaves: set<int>, leaf: int, open: set<int>)
    requires Leaves(depth, leaves) && 0 <= leaf < Pow2(depth)
    requires forall n :: n in open <==>
      n in PathsOf(depth, leaves) || exists k :: 0 <= k <= depth && n == NodeAt(depth, leaf, k)
    ensures open == PathsOf(depth, leaves + {leaf})
  {
    forall n ensures n in open <==> n in PathsOf(depth, leaves + {leaf}) {
      if n in PathsOf(depth, leaves + {leaf}) {
        var l, k :| l in leaves + {leaf} && 0 <= k <= depth && n == NodeAt(depth, l, k);
        if l in leaves { InPathsOf(depth, leaves, l, k); }
      }
      if n in open && n !in PathsOf(depth, leaves) {
        var k :| 0 <= k <= depth && n == NodeAt(depth, leaf, k);
        InPathsOf(depth, leaves + {leaf}, leaf, k);
      }
      if n in open && n in PathsOf(depth, leaves) {
        var l, k :| l in leaves && 0 <= k <= depth && n == NodeAt(depth, l, k);
        InPathsOf(depth, leaves + {leaf}, l, k);
      }
    }
  }

  lemma OpenNothing(depth: nat)
    ensures PathsOf(depth, {}) == {} && Leaves(depth, {})
  {
  }

  lemma OpenOwnPath<K(!new)>(depth: nat, position: K -> int, id: K, leaves: set<int>)
    requires Leaves(depth, leaves) && 0 <= position(id) < Pow2(depth)
    ensures Leaves(depth, leaves + {position(id)})
    ensures PathOpen(depth, position, id, PathsOf(depth, leaves + {position(id)}))
  {
    hide PathsOf, PathOpen;
    var all := leaves + {position(id)};
    forall k | 0 <= k <= depth ensures NodeAt(depth, position(id), k) in PathsOf(depth, all) {
      InPathsOf(depth, all, position(id), k);
    }
    PathMembers(depth, position, id, PathsOf(depth, all));
  }

  lemma InvShape<K(!new), V>(depth: nat, position: K -> int, buckets: seq<Bucket<K, V>>, stash: map<K, Box<V>>,
                 contents: map<K, V>, open: set<int>)
    requires Inv(depth, position, buckets, stash, contents, open)
    ensures |buckets| == Pow2(depth + 1) - 1
    ensures forall n :: 0 <= n < |buckets| ==> |buckets[n]| <= Z
  {
  }

  lemma PathsOfWitness(depth: nat, leaves: set<int>, n: int) returns (leaf: int, k: nat)
    requires Leaves(depth, leaves) && n in PathsOf(depth, leaves)
    ensures leaf in leaves && k <= depth && n == NodeAt(depth, leaf, k)
  {
    leaf, k :| leaf in leaves && 0 <= k <= depth && n == NodeAt(depth, leaf, k);
  }

  lemma NoPaths(depth: nat)
    ensures PathsOf(depth, {}) == {}
  {
  }

  /** Buckets at different depths of a path differ. */
  lemma PathNodesDistinct(depth: nat, leaf: int)
    requires 0 <= leaf < Pow2(depth)
    ensures forall j, k :: 0 <= j < k <= depth ==> NodeAt(depth, leaf, j) != NodeAt(depth, leaf, k)
  {
    forall j, k | 0 <= j < k <= depth ensures NodeAt(depth, leaf, j) != NodeAt(depth, leaf, k) {
      PathBucket(depth, leaf, j);
      PathBucket(depth, leaf, k);
    }
  }

  /** Two leaves meet at height k exactly when the bucket of one is on the other's path. */
  lemma SamePathBucket<K(!new)>(depth: nat, position: K -> int, leaf: int, id: K, k: nat)
    requires 0 <= leaf < Pow2(depth) && k <= depth && 0 <= position(id) < Pow2(depth)
    ensures NodeAt(depth, position(id), k) == NodeAt(depth, leaf, k) <==>
      OnPath(depth, position, id, NodeAt(depth, leaf, k))
  {
    PathBucket(depth, leaf, k);
  }

  lemma StashPositions<K(!new), V>(depth: nat, position: K -> int, buckets: seq<Bucket<K, V>>, stash: map<K, Box<V>>,
                       contents: map<K, V>, open: set<int>)
    requires Inv(depth, position, buckets, stash, contents, open)
    ensures |buckets| == Pow2(depth + 1) - 1
    ensures forall id :: id in stash ==> 0 <= position(id) < Pow2(depth) && stash[id].pos == position(id)
  {
  }

  /** Every path starts at the root, so every stashed id may be placed there. */
  lemma AllMeetAtRoot<K(!new), V>(depth: nat, position: K -> int, buckets: seq<Bucket<K, V>>, stash: map<K, Box<V>>,
                      contents: map<K, V>, open: set<int>, leaf: int)
    requires Inv(depth, position, buckets, stash, contents, open) && 0 <= leaf < Pow2(depth)
    ensures NodeAt(depth, leaf, depth) == 0
    ensures forall id :: id in stash ==> OnPath(depth, position, id, 0)
  {
    StashPositions(depth, position, buckets, stash, contents, open);
    RootIsOne(depth, leaf);
    forall id | id in stash ensures OnPath(depth, position, id, 0) {
      RootIsOne(depth, position(id));
      SamePathBucket(depth, position, leaf, id, depth);
    }
  }

  lemma RootIsOne(depth: nat, leaf: int)
    requires 0 <= leaf < Pow2(depth)
    ensures NodeAt(depth, leaf, depth) == 0
  {
    ClimbBounds(depth, leaf + Pow2(depth), depth);
  }

  lemma FetchedStep<K(!new), V>(before: map<K, Box<V>>, bucket: Bucket<K, V>, z: nat, stash: map<K, Box<V>>)
    requires z < |bucket| && bucket[z].id !in before && !Has(bucket[..z], bucket[z].id)
    requires bucket[z].id in stash && stash[bucket[z].id] == bucket[z].box
    requires Fetched(before, bucket[..z], stash - {bucket[z].id})
    ensures Fetched(before, bucket[..z + 1], stash)
  {
    assert bucket[..z + 1] == bucket[..z] + [bucket[z]];
    forall id ensures Has(bucket[..z + 1], id) <==> Has(bucket[..z], id) || id == bucket[z].id {
      if Has(bucket[..z], id) {
        var y :| 0 <= y < |bucket[..z]| && bucket[..z][y].id == id;
        assert bucket[..z + 1][y].id == id;
      }
      if id == bucket[z].id { assert bucket[..z + 1][z].id == id; }
      if Has(bucket[..z + 1], id) && id != bucket[z].id {
        var y :| 0 <= y < |bucket[..z + 1]| && bucket[..z + 1][y].id == id;
        assert bucket[..z][y].id == id;
      }
    }
  }
}

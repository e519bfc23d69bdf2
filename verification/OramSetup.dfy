/** setupInsert: bulk placement of records in an empty bucket tree, shared by
    the two Path ORAMs. */
module OramSetup {
  import opened Powers
  import opened HeapTree
  import opened OramState

  /** The map that a list of records stands for. */
  ghost function AllOf<K(!new), V>(nodes: seq<Block<K, V>>): map<K, V> {
    if nodes == [] then map[]
    else
      var x := nodes[|nodes| - 1];
      AllOf(nodes[..|nodes| - 1])[x.id := x.box.value]
  }

  lemma AllOfEmpty<K(!new), V>(nodes: seq<Block<K, V>>)
    ensures AllOf(nodes[..0]) == map[]
  {
  }

  lemma AllOfStep<K(!new), V>(nodes: seq<Block<K, V>>, i: nat)
    requires i < |nodes|
    ensures AllOf(nodes[..i + 1]) == AllOf(nodes[..i])[nodes[i].id := nodes[i].box.value]
  {
    assert nodes[..i + 1][..i] == nodes[..i];
  }

  lemma {:induction false} AllOfKeys<K(!new), V>(nodes: seq<Block<K, V>>, i: nat, id: K)
    requires i <= |nodes| && forall j :: 0 <= j < i ==> nodes[j].id != id
    ensures id !in AllOf(nodes[..i])
  {
    if i > 0 {
      AllOfKeys(nodes, i - 1, id);
      AllOfStep(nodes, i - 1);
    }
  }

  /** The buckets to be written, over an empty store. */
  ghost predicate Overlays<K(!new), V>(virtual: seq<Bucket<K, V>>, tmp: map<int, Bucket<K, V>>) {
    && (forall n :: n in tmp ==> 0 <= n < |virtual|)
    && (forall n :: 0 <= n < |virtual| ==> virtual[n] == if n in tmp then tmp[n] else [])
  }

  lemma EmptyStore<K(!new), V>(depth: nat, position: K -> int, buckets: seq<Bucket<K, V>>)
    requires Inv(depth, position, buckets, map[], map[], {})
    ensures Overlays(buckets, map[])
  {
    forall n | 0 <= n < |buckets| ensures |buckets[n]| > 0 ==> Has(buckets[n], buckets[n][0].id) {
    }
    OnlyContents(depth, position, buckets, map[], map[]);
  }

  lemma PlaceNext<K(!new), V>(depth: nat, position: K -> int, buckets: seq<Bucket<K, V>>, stash: map<K, Box<V>>,
                              nodes: seq<Block<K, V>>, i: nat, n: int, k: nat)
    requires i < |nodes| && Inv(depth, position, buckets, stash, AllOf(nodes[..i]), {})
    requires forall x, y :: 0 <= x < y < |nodes| ==> nodes[x].id != nodes[y].id
    requires Placeable(depth, position, nodes[i])
    requires k <= depth && n == NodeAt(depth, nodes[i].box.pos, k) && 0 <= n < |buckets| && |buckets[n]| < Z
    ensures Inv(depth, position, buckets[n := buckets[n] + [nodes[i]]], stash, AllOf(nodes[..i + 1]), {})
  {
    hide Inv, NodeAt;
    AllOfKeys(nodes, i, nodes[i].id);
    AllOfStep(nodes, i);
    SamePathBucket(depth, position, nodes[i].box.pos, nodes[i].id, k);
    PlaceKeeps(depth, position, buckets, stash, AllOf(nodes[..i]), n, nodes[i]);
  }

  lemma StashNext<K(!new), V>(depth: nat, position: K -> int, buckets: seq<Bucket<K, V>>, stash: map<K, Box<V>>,
                              nodes: seq<Block<K, V>>, i: nat)
    requires i < |nodes| && Inv(depth, position, buckets, stash, AllOf(nodes[..i]), {})
    requires forall x, y :: 0 <= x < y < |nodes| ==> nodes[x].id != nodes[y].id
    requires Placeable(depth, position, nodes[i])
    ensures Inv(depth, position, buckets, stash[nodes[i].id := nodes[i].box], AllOf(nodes[..i + 1]), {})
  {
    hide Inv;
    AllOfKeys(nodes, i, nodes[i].id);
    AllOfStep(nodes, i);
    StashKeeps(depth, position, buckets, stash, AllOf(nodes[..i]), nodes[i]);
  }

  /** The record's position is that of its id, and a leaf of the tree. */
  ghost predicate Placeable<K(!new), V>(depth: nat, position: K -> int, x: Block<K, V>) {
    position(x.id) == x.box.pos && 0 <= x.box.pos < Pow2(depth)
  }

  /** Every record ends in exactly one place: a bucket on its own path with at
      most Z records, or the stash. The records may come in any order. */
  method PlaceAll<K(!new, ==), V>(depth: nat, ghost position: K -> int, buckets0: seq<Bucket<K, V>>,
                                  nodes: seq<Block<K, V>>)
    returns (buckets: seq<Bucket<K, V>>, stash: map<K, Box<V>>)
    requires Inv(depth, position, buckets0, map[], map[], {})
    requires forall i :: 0 <= i < |nodes| ==> Placeable(depth, position, nodes[i])
    requires forall i, j :: 0 <= i < j < |nodes| ==> nodes[i].id != nodes[j].id
    ensures Inv(depth, position, buckets, stash, AllOf(nodes), {})
  {
    hide Inv, AllOf, NodeAt;
    stash := map[];
    EmptyStore(depth, position, buckets0);
    AllOfEmpty(nodes);
    var tmp: map<int, Bucket<K, V>> := map[];
    ghost var virtual := buckets0;
    var curPos := if |nodes| > 0 then nodes[0].box.pos else 0;
    var i, cannotInsert := 0, false;
    while i < |nodes|
      invariant 0 <= i <= |nodes|
      invariant i < |nodes| ==> curPos == nodes[i].box.pos
      invariant Overlays(virtual, tmp) && |virtual| == |buckets0|
      invariant Inv(depth, position, virtual, stash, AllOf(nodes[..i]), {})
    {
      assert Placeable(depth, position, nodes[i]);
      ghost var i0 := i;
      var d: int := depth;
      while d >= 0 && i < |nodes| && curPos == nodes[i].box.pos
        invariant i0 <= i <= |nodes| && -1 <= d <= depth && 0 <= curPos < Pow2(depth)
        invariant i == i0 && d < depth ==> cannotInsert
        invariant Overlays(virtual, tmp) && |virtual| == |buckets0|
        invariant Inv(depth, position, virtual, stash, AllOf(nodes[..i]), {})
      {
        PathBucket(depth, curPos, depth - d);
        var node := GetNodeOnPath(depth, curPos, depth, d);
        IsNodeAt(depth, curPos, depth - d, node);
        InvShape(depth, position, virtual, stash, AllOf(nodes[..i]), {});
        if node !in tmp || |tmp[node]| < Z {
          var bucket := if node in tmp then tmp[node] else [];
          bucket, i, virtual := FillBucket(depth, position, stash, nodes, i, curPos, d, node, bucket, virtual);
          tmp := tmp[node := bucket];
        } else {
          cannotInsert := true;
        }
        d := d - 1;
      }
      if i < |nodes| {
        if cannotInsert {
          StashNext(depth, position, virtual, stash, nodes, i);
          stash := stash[nodes[i].id := nodes[i].box];
          i := i + 1;
          cannotInsert := false;
        }
        if i < |nodes| { curPos := nodes[i].box.pos; }
      }
    }
    assert nodes[..|nodes|] == nodes;
    buckets := seq(|buckets0|, n requires 0 <= n < |buckets0| => if n in tmp then tmp[n] else buckets0[n]);
    assert buckets == virtual by { EmptyStore(depth, position, buckets0); }
  }

  lemma IsNodeAt(depth: nat, leaf: int, k: nat, node: int)
    requires 0 <= leaf && node == Climb(leaf + Pow2(depth), k) - 1
    ensures node == NodeAt(depth, leaf, k)
  {
  }

  /** Fill a bucket with the next nodes of the current position, up to Z. */
  method FillBucket<K(!new), V>(depth: nat, ghost position: K -> int, ghost stash: map<K, Box<V>>,
                                nodes: seq<Block<K, V>>, start: nat,
                         curPos: int, d: nat, node: int, bucket: Bucket<K, V>, ghost virtual: seq<Bucket<K, V>>)
    returns (bucket': Bucket<K, V>, i: nat, ghost virtual': seq<Bucket<K, V>>)
    requires start < |nodes| && nodes[start].box.pos == curPos && d <= depth && 0 <= curPos < Pow2(depth)
    requires forall i :: 0 <= i < |nodes| ==> Placeable(depth, position, nodes[i])
    requires forall i, j :: 0 <= i < j < |nodes| ==> nodes[i].id != nodes[j].id
    requires node == NodeAt(depth, curPos, depth - d) && 0 <= node < |virtual| && virtual[node] == bucket
    requires |bucket| < Z
    requires Inv(depth, position, virtual, stash, AllOf(nodes[..start]), {})
    ensures start < i <= |nodes| && |bucket'| <= Z
    ensures virtual' == virtual[node := bucket']
    ensures Inv(depth, position, virtual', stash, AllOf(nodes[..i]), {})
  {
    hide Inv, AllOf, NodeAt;
    bucket', i, virtual' := bucket, start, virtual;
    for z := |bucket| to Z
      invariant start <= i <= |nodes| && |bucket'| <= z && virtual' == virtual[node := bucket']
      invariant z > |bucket| ==> i > start
      invariant Inv(depth, position, virtual', stash, AllOf(nodes[..i]), {})
    {
      if i < |nodes| && nodes[i].box.pos == curPos {
        PlaceNext(depth, position, virtual', stash, nodes, i, node, depth - d);
        bucket' := bucket' + [nodes[i]];
        virtual' := virtual'[node := bucket'];
        i := i + 1;
      }
    }
  }
}

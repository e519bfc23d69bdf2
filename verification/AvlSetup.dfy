/** The setup phase of the oblivious map: a balanced tree is built over the
    sorted nodes in place and all of them are placed in the empty store. */
module AvlSetup {
  import opened Powers
  import opened AvlTree
  import opened AvlReach
  import opened OramState
  import opened AvlStore
  import opened NodeOram

  // ----- the tree over a sorted sequence -----

  /** The middle element becomes the root. */
  function Bst(s: seq<Pair>): Tree<string> {
    if s == [] then Leaf
    else
      var m := (|s| - 1) / 2;
      Node(Bst(s[..m]), s[m].0, s[m].1, Bst(s[m + 1..]))
  }

  ghost predicate Sorted(s: seq<Pair>) {
    forall i, j :: 0 <= i < j < |s| ==> s[i].0 < s[j].0
  }

  /** ceil(log2(n + 1)). */
  function BstHeight(n: nat): nat {
    if n == 0 then 0 else FloorLog2(n) + 1
  }

  lemma BstHeightStep(n: nat)
    requires n >= 1
    ensures BstHeight(n) == 1 + BstHeight(n / 2)
    ensures BstHeight(n / 2) - 1 <= BstHeight((n - 1) / 2) <= BstHeight(n / 2)
  {
    if n >= 2 { HalfHeights(n / 2); }
  }

  lemma {:induction false} HalfHeights(k: nat)
    requires k >= 1
    ensures BstHeight(k) - 1 <= BstHeight(k - 1) <= BstHeight(k)
  {
    if k >= 2 {
      var a, b := FloorLog2(k - 1), FloorLog2(k);
      if b < a { Pow2Monotone(b + 1, a); }
      if a + 1 < b { Pow2Monotone(a + 2, b); }
    }
  }

  lemma BstUnfold(s: seq<Pair>, l: seq<Pair>, r: seq<Pair>)
    requires s != [] && l == s[..(|s| - 1) / 2] && r == s[(|s| - 1) / 2 + 1..]
    ensures Bst(s) == Node(Bst(l), s[|l|].0, s[|l|].1, Bst(r))
    ensures |l| == (|s| - 1) / 2 && |r| == |s| / 2
  {
  }

  lemma {:induction false} NodeShape(l: Tree<string>, k: int, v: string, r: Tree<string>)
    requires Balanced(l) && Balanced(r) && Height(r) - 1 <= Height(l) <= Height(r)
    ensures Balanced(Node(l, k, v, r)) && Height(Node(l, k, v, r)) == 1 + Height(r)
    ensures Size(Node(l, k, v, r)) == Size(l) + 1 + Size(r)
  {
  }

  lemma {:induction false} BstShape(s: seq<Pair>)
    ensures Height(Bst(s)) == BstHeight(|s|) && Balanced(Bst(s)) && Size(Bst(s)) == |s|
    decreases |s|
  {
    if s != [] {
      hide *;
      var m := (|s| - 1) / 2;
      var l, r := s[..m], s[m + 1..];
      BstUnfold(s, l, r);
      BstShape(l);
      BstShape(r);
      BstHeightStep(|s|);
      NodeShape(Bst(l), s[m].0, s[m].1, Bst(r));
    }
  }

  ghost predicate Among(s: seq<Pair>, k: int) {
    exists i :: 0 <= i < |s| && s[i].0 == k
  }

  lemma AmongParts(s: seq<Pair>, m: nat, k: int)
    requires m < |s|
    ensures Among(s, k) <==> Among(s[..m], k) || s[m].0 == k || Among(s[m + 1..], k)
  {
    var l, r := s[..m], s[m + 1..];
    if Among(s, k) {
      var i :| 0 <= i < |s| && s[i].0 == k;
      if i < m {
        assert l[i].0 == k;
      } else if i > m {
        assert r[i - m - 1].0 == k;
      }
    }
    if Among(l, k) {
      var i :| 0 <= i < |l| && l[i].0 == k;
      assert s[i].0 == k;
    }
    if Among(r, k) {
      var i :| 0 <= i < |r| && r[i].0 == k;
      assert s[m + 1 + i].0 == k;
    }
  }

  lemma {:induction false} BstKeys(s: seq<Pair>, k: int)
    ensures k in Keys(Bst(s)) <==> Among(s, k)
    decreases |s|
  {
    if s != [] {
      hide Among, Bst;
      var m := (|s| - 1) / 2;
      var l, r := s[..m], s[m + 1..];
      BstUnfold(s, l, r);
      BstKeys(l, k);
      BstKeys(r, k);
      AmongParts(s, m, k);
    }
  }

  lemma {:induction false} BstOrdered(s: seq<Pair>)
    requires Sorted(s)
    ensures Ordered(Bst(s))
    decreases |s|
  {
    if s != [] {
      var m := (|s| - 1) / 2;
      var l, r := s[..m], s[m + 1..];
      BstOrdered(l);
      BstOrdered(r);
      forall k | k in Keys(Bst(l)) ensures k < s[m].0 { BstKeys(l, k); }
      forall k | k in Keys(Bst(r)) ensures s[m].0 < k { BstKeys(r, k); }
    }
  }

  /** The tree stands for exactly the given pairs. */
  lemma {:induction false} BstContents(s: seq<Pair>, i: nat)
    requires Sorted(s) && i < |s|
    ensures s[i].0 in Contents(Bst(s)) && Contents(Bst(s))[s[i].0] == s[i].1
    decreases |s|
  {
    hide Bst, Contents, Keys, Ordered;
    var m := (|s| - 1) / 2;
    var l, r := s[..m], s[m + 1..];
    BstUnfold(s, l, r);
    BstOrdered(s);
    LookupSide(Bst(s), s[i].0);
    if i < m {
      BstContents(l, i);
    } else if i > m {
      BstContents(r, i - m - 1);
    }
  }

  /** A tree of at most as many keys as the store has slots is low enough. */
  lemma BstFits(s: seq<Pair>, slots: nat)
    requires 1 <= slots && |s| <= slots
    ensures Height(Bst(s)) <= FloorLog2(slots) + 1
  {
    BstShape(s);
    if s != [] && FloorLog2(slots) < FloorLog2(|s|) { Pow2Monotone(FloorLog2(slots) + 1, FloorLog2(|s|)); }
  }

  // ----- building it in place -----

  ghost function Pairs(s: seq<Node>): seq<Pair> {
    seq(|s|, i requires 0 <= i < |s| => (s[i].value.key, s[i].value.value))
  }

  /** The nodes are in key order and none has the null id. */
  ghost predicate Ready(s: seq<Node>) {
    Sorted(Pairs(s)) && forall i :: 0 <= i < |s| ==> s[i].value.key != 0
  }

  lemma ReadyDistinct(s: seq<Node>)
    requires Ready(s)
    ensures DistinctKeys(s)
  {
    forall i, j | 0 <= i < j < |s| ensures s[i].value.key != s[j].value.key {
      assert Pairs(s)[i].0 < Pairs(s)[j].0;
    }
  }

  /** s' differs from s only in the links of the nodes from lo to hi. */
  ghost predicate Built(s: seq<Node>, s': seq<Node>, lo: int, hi: int) {
    && Pairs(s') == Pairs(s) && |s'| == |s|
    && (forall i :: 0 <= i < |s| && !(lo <= i < hi) ==> s'[i] == s[i])
  }

  lemma BuiltReady(s: seq<Node>, s': seq<Node>, lo: int, hi: int)
    requires Ready(s) && Built(s, s', lo, hi)
    ensures Ready(s')
  {
    forall i | 0 <= i < |s'| ensures s'[i].value.key != 0 {
      assert Pairs(s')[i].0 == Pairs(s)[i].0;
    }
  }

  lemma BuiltTrans(a: seq<Node>, b: seq<Node>, c: seq<Node>, lo: int, m1: int, m2: int, hi: int)
    requires Built(a, b, lo, m1) && Built(b, c, m2, hi) && lo <= m1 <= hi && lo <= m2 <= hi
    ensures Built(a, c, lo, hi)
  {
  }

  /** A segment keeps its layout while the nodes outside it change. */
  lemma {:induction false} SegmentFrame(s: seq<Node>, s': seq<Node>, lo: int, hi: int, from: int, to: int, id: int,
                                        pos: int)
    requires Ready(s) && Built(s, s', lo, hi) && 0 <= from <= to <= |s| && (to <= lo || hi <= from)
    requires Rep(LiveOf(s), id, pos, Bst(Pairs(s)[from..to]))
    ensures Rep(LiveOf(s'), id, pos, Bst(Pairs(s)[from..to]))
  {
    hide Rep, LiveOf, Bst;
    var t := Bst(Pairs(s)[from..to]);
    ReadyDistinct(s);
    BuiltReady(s, s', lo, hi);
    ReadyDistinct(s');
    forall k | k in Keys(t) && k in LiveOf(s) ensures k in LiveOf(s') && LiveOf(s')[k] == LiveOf(s)[k] {
      BstKeys(Pairs(s)[from..to], k);
      var i :| 0 <= i < to - from && Pairs(s)[from..to][i].0 == k;
      assert s[from + i].value.key == k && s'[from + i] == s[from + i];
      LiveAt(s, from + i);
      LiveAt(s', from + i);
    }
    RepFrame(LiveOf(s), LiveOf(s'), id, pos, t);
  }

  /** The root over two built halves. */
  lemma {:induction false} RootBuilt(s: seq<Node>, lo: nat, mid: nat, hi: nat)
    requires Ready(s) && lo <= mid < hi <= |s| && mid == lo + (hi - lo - 1) / 2
    requires var n := s[mid].value;
      && Rep(LiveOf(s), n.leftID, n.leftPos, Bst(Pairs(s)[lo..mid]))
      && Rep(LiveOf(s), n.rightID, n.rightPos, Bst(Pairs(s)[mid + 1..hi]))
      && n.height == Height(Bst(Pairs(s)[lo..hi]))
    ensures Rep(LiveOf(s), s[mid].value.key, s[mid].pos, Bst(Pairs(s)[lo..hi]))
  {
    hide LiveOf, Bst, Height;
    ReadyDistinct(s);
    LiveAt(s, mid);
    var seg := Pairs(s)[lo..hi];
    assert seg[..mid - lo] == Pairs(s)[lo..mid];
    assert seg[mid - lo + 1..] == Pairs(s)[mid + 1..hi];
    BstUnfold(seg, Pairs(s)[lo..mid], Pairs(s)[mid + 1..hi]);
  }

  lemma {:induction false} RootHeight(s: seq<Pair>, lo: nat, mid: nat, hi: nat)
    requires lo <= mid < hi <= |s| && mid == lo + (hi - lo - 1) / 2
    ensures Height(Bst(s[lo..hi])) == Max(Height(Bst(s[lo..mid])), Height(Bst(s[mid + 1..hi]))) + 1
  {
    hide Bst;
    var seg := s[lo..hi];
    assert seg[..mid - lo] == s[lo..mid];
    assert seg[mid - lo + 1..] == s[mid + 1..hi];
    BstUnfold(seg, s[lo..mid], s[mid + 1..hi]);
  }

  ghost predicate Placed(s: seq<Node>, depth: nat, lo: int, hi: int) {
    forall i :: 0 <= i < |s| && lo <= i < hi ==> 0 <= s[i].pos < Pow2(depth)
  }

  /** sortedArrayToBST on nodes start to end: links, heights and positions of
      the segment lay out the tree over its sorted pairs. */
  method SortedArrayToBst(nodes: array<Node>, start: int, end: int, depth: nat)
    returns (height: int, pos: int, key: int)
    requires 0 <= start <= end + 1 <= nodes.Length && Ready(nodes[..])
    modifies nodes
    ensures Built(old(nodes[..]), nodes[..], start, end + 1) && Ready(nodes[..])
    ensures Placed(nodes[..], depth, start, end + 1)
    ensures var t := Bst(Pairs(nodes[..])[start..end + 1]);
            height == Height(t) && Rep(LiveOf(nodes[..]), key, pos, t)
    decreases end - start + 1
  {
    hide LiveOf, Bst, Height, Rep, Ready, Built;
    ghost var s0 := nodes[..];
    if start > end {
      NothingBuilt(s0, start);
      return 0, -1, 0;
    }
    var mid := (start + end) / 2;
    var leftHeight, leftPos, leftId := SortedArrayToBst(nodes, start, mid - 1, depth);
    ghost var s1 := nodes[..];
    var rightHeight, rightPos, rightId := SortedArrayToBst(nodes, mid + 1, end, depth);
    ghost var s2 := nodes[..];
    var leaf := RandomPath(depth);
    height := Max(leftHeight, rightHeight) + 1;
    var n := nodes[mid].value;
    n := n.(leftID := leftId, leftPos := leftPos, rightID := rightId, rightPos := rightPos, height := height);
    nodes[mid] := Box(n, leaf);
    pos, key := leaf, n.key;
    assert nodes[..] == s2[mid := nodes[mid]];
    Assemble(s0, s1, s2, nodes[..], depth, start, mid, end + 1);
  }

  /** From two built halves to the whole segment. */
  lemma {:induction false} Assemble(s0: seq<Node>, s1: seq<Node>, s2: seq<Node>, s3: seq<Node>, depth: nat, lo: nat,
                                    mid: nat, hi: nat)
    requires Ready(s0) && lo <= mid < hi <= |s0| && mid == lo + (hi - lo - 1) / 2
    requires Built(s0, s1, lo, mid) && Built(s1, s2, mid + 1, hi) && |s3| == |s2| == |s1| == |s0|
    requires s3 == s2[mid := s3[mid]]
    requires Placed(s1, depth, lo, mid) && Placed(s2, depth, mid + 1, hi) && 0 <= s3[mid].pos < Pow2(depth)
    requires var n := s3[mid].value;
      && n.key == s2[mid].value.key && n.value == s2[mid].value.value
      && Rep(LiveOf(s1), n.leftID, n.leftPos, Bst(Pairs(s1)[lo..mid]))
      && Rep(LiveOf(s2), n.rightID, n.rightPos, Bst(Pairs(s2)[mid + 1..hi]))
      && n.height == Max(Height(Bst(Pairs(s1)[lo..mid])), Height(Bst(Pairs(s2)[mid + 1..hi]))) + 1
    ensures Built(s0, s3, lo, hi) && Ready(s3) && Placed(s3, depth, lo, hi)
    ensures var t := Bst(Pairs(s3)[lo..hi]);
            s3[mid].value.height == Height(t) && Rep(LiveOf(s3), s3[mid].value.key, s3[mid].pos, t)
  {
    hide LiveOf, Bst, Height, Rep, Ready;
    assert Built(s2, s3, mid, mid + 1) by { assert Pairs(s3) == Pairs(s2); }
    BuiltTrans(s1, s2, s3, mid, hi, mid, hi);
    BuiltTrans(s0, s1, s3, lo, mid, mid, hi);
    BuiltReady(s0, s1, lo, mid);
    BuiltReady(s1, s2, mid + 1, hi);
    BuiltReady(s2, s3, mid, mid + 1);
    var n := s3[mid].value;
    SegmentFrame(s1, s3, mid, hi, lo, mid, n.leftID, n.leftPos);
    SegmentFrame(s2, s3, mid, mid + 1, mid + 1, hi, n.rightID, n.rightPos);
    RootHeight(Pairs(s3), lo, mid, hi);
    RootBuilt(s3, lo, mid, hi);
  }

  lemma NothingBuilt(s: seq<Node>, i: nat)
    requires i <= |s|
    ensures Built(s, s, i, i) && Height(Bst(Pairs(s)[i..i])) == 0 && Rep(LiveOf(s), 0, -1, Bst(Pairs(s)[i..i]))
  {
    assert Pairs(s)[i..i] == [];
  }
}

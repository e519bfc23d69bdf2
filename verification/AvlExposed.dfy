/** Which operations on a tree above the bound put it at risk, told from the tree
    and the key alone, and a run that comes to such an operation. */
module AvlExposed {
  import opened AvlTree
  import opened AvlReach
  import opened OramState
  import opened AvlStore
  import opened AvlOram

  /** The height of the lowest node that a search for the key reads. */
  function LowestSeen<V>(t: Tree<V>, key: int): nat {
    if t.Leaf? then 0
    else
      var c := if key < t.key then t.left else t.right;
      if key == t.key || c.Leaf? then Height(t) else LowestSeen(c, key)
  }

  lemma {:induction false} LowestBelow<V>(t: Tree<V>, key: int)
    ensures LowestSeen(t, key) <= Height(t)
  {
    if t.Node? && key < t.key { LowestBelow(t.left, key); }
    if t.Node? && key > t.key { LowestBelow(t.right, key); }
  }

  /** A search that misses ends near the bottom. */
  lemma {:induction false} MissedIsLow<V>(t: Tree<V>, key: int)
    requires Avl(t) && key !in Keys(t)
    ensures LowestSeen(t, key) <= 2
  {
    if t.Node? {
      if key < t.key && t.left.Node? { MissedIsLow(t.left, key); }
      if key > t.key && t.right.Node? { MissedIsLow(t.right, key); }
    }
  }

  lemma {:induction false} SeenInTree(t: Tree<string>, key: int)
    ensures Seen(t, key) <= Keys(t)
  {
    if t.Node? && key < t.key { SeenInTree(t.left, key); }
    if t.Node? && key > t.key { SeenInTree(t.right, key); }
  }

  /** What is touched elsewhere does not matter. */
  lemma {:induction false} ExposedFrame(a: set<int>, b: set<int>, bound: int, t: Tree<string>)
    requires a * Keys(t) <= b
    ensures Exposed(a, bound, t) ==> Exposed(b, bound, t)
  {
    if t.Node? {
      ExposedFrame(a, b, bound, t.left);
      ExposedFrame(a, b, bound, t.right);
    }
  }

  lemma {:induction false} UntouchedIsSafe(touched: set<int>, bound: int, t: Tree<string>)
    requires touched !! Keys(t)
    ensures !Exposed(touched, bound, t)
  {
    if t.Node? {
      UntouchedIsSafe(touched, bound, t.left);
      UntouchedIsSafe(touched, bound, t.right);
    }
  }

  /** A search puts a tree at risk if and only if it goes from above the bound
      to a node that is not. */
  lemma {:induction false} SearchExposes(t: Tree<string>, key: int, bound: int)
    requires Ordered(t)
    ensures Exposed(Seen(t, key), bound, t) <==> Height(t) > bound && t.Node? && LowestSeen(t, key) <= bound
  {
    if t.Node? {
      NotBelow(t);
      SeenInTree(t.left, key);
      SeenInTree(t.right, key);
      var touched := Seen(t, key);
      if key == t.key {
        UntouchedIsSafe(touched, bound, t.left);
        UntouchedIsSafe(touched, bound, t.right);
      } else {
        var c, d := if key < t.key then t.left else t.right, if key < t.key then t.right else t.left;
        UntouchedIsSafe(touched, bound, d);
        ExposedFrame(touched, Seen(c, key), bound, c);
        ExposedFrame(Seen(c, key), touched, bound, c);
        SearchExposes(c, key, bound);
        LowestBelow(c, key);
        RootSeen(c, key);
      }
    }
  }

  // ----- a new key -----

  /** Rebalancing reads the children of every node it leaves on the path. */
  lemma {:induction false} FixedPath(t: Tree<string>, key: int, cached: set<int>)
    requires Fixable(t, key) && Ordered(t) && SideCached(t, key, cached) && {t.key} + FixTouches(t, key) <= cached
    ensures PathCached(Rebalance(t, key), key, cached)
  {
    hide PathCached, SideCached, Height, Keys, Ordered;
    if Balance(t) > 1 {
      if key < t.left.key {
        PathRightRotated(t, key, cached);
      } else {
        DoubleRightKeys(t);
        PathLeftRight(t, key, cached);
      }
    } else if Balance(t) < -1 {
      if key > t.right.key {
        PathLeftRotated(t, key, cached);
      } else {
        DoubleLeftKeys(t);
        PathRightLeft(t, key, cached);
      }
    } else {
      PathStays(t, key, cached);
    }
  }

  /** An insertion of a new key touches its whole path and the children of each
      node on it. */
  lemma {:induction false} NewKeyPath(t: Tree<string>, key: int, value: string)
    requires Avl(t) && key !in Keys(t)
    ensures PathCached(Insert(t, key, value), key, Touched(t, key, value))
  {
    if t.Node? {
      var touched := Touched(t, key, value);
      if key < t.key {
        InsertLeftSpec(t, key, value);
        NewKeyPath(t.left, key, value);
        PathCachedGrows(Insert(t.left, key, value), key, Touched(t.left, key, value), touched);
        FixedPath(t.(left := Insert(t.left, key, value)), key, touched);
      } else {
        InsertRightSpec(t, key, value);
        NewKeyPath(t.right, key, value);
        PathCachedGrows(Insert(t.right, key, value), key, Touched(t.right, key, value), touched);
        FixedPath(t.(right := Insert(t.right, key, value)), key, touched);
      }
    }
  }

  /** Where a new key ends up: at the bottom, or one above it after a double rotation. */
  ghost predicate NewIsLow(t: Tree<string>, t': Tree<string>, key: int) {
    LowestSeen(t', key) <= (if Height(t') > Height(t) then 1 else 2)
  }

  /** The double rotation around x < key < y, whose middle subtree the key went into. */
  lemma {:induction false} DoubleLow(a: Tree<string>, x: int, u: string, m: Tree<string>, y: int, w: string,
                                     b: Tree<string>, key: int)
    requires m.Node? && x < key < y && LowestSeen(m, key) <= 1
    requires Height(a) == Height(b) == Height(m) - 1 && Balanced(m)
    ensures var d := Node(Node(a, x, u, m.left), m.key, m.value, Node(m.right, y, w, b));
            LowestSeen(d, key) <= 2 && Height(d) == Height(m) + 1
  {
    if key < m.key && m.left.Node? {
      assert LowestSeen(m, key) == LowestSeen(m.left, key);
    } else if key > m.key && m.right.Node? {
      assert LowestSeen(m, key) == LowestSeen(m.right, key);
    } else {
      assert Height(m) == 1;
    }
  }

  lemma {:induction false} LowLeft(t: Tree<string>, c: Tree<string>, key: int)
    requires t.Node? && Balanced(t) && key < t.key && Balanced(c) && c.Node?
    requires Height(t.left) <= Height(c) <= Height(t.left) + 1
    requires Height(c) > Height(t.left) ==> Leans(c, key)
    requires NewIsLow(t.left, c, key)
    ensures NewIsLow(t, Rebalance(t.(left := c), key), key)
  {
    RebalanceLeft(t, c, key);
    var t1 := t.(left := c);
    if -1 <= Balance(t1) <= 1 {
      assert LowestSeen(t1, key) == LowestSeen(c, key);
    } else if key < c.key {
      assert LowestSeen(RotateRight(t1), key) == LowestSeen(c.left, key) == LowestSeen(c, key);
    } else {
      DoubleLow(c.left, c.key, c.value, c.right, t.key, t.value, t.right, key);
    }
  }

  lemma {:induction false} LowRight(t: Tree<string>, c: Tree<string>, key: int)
    requires t.Node? && Balanced(t) && key > t.key && Balanced(c) && c.Node?
    requires Height(t.right) <= Height(c) <= Height(t.right) + 1
    requires Height(c) > Height(t.right) ==> Leans(c, key)
    requires NewIsLow(t.right, c, key)
    ensures NewIsLow(t, Rebalance(t.(right := c), key), key)
  {
    RebalanceRight(t, c, key);
    var t1 := t.(right := c);
    if -1 <= Balance(t1) <= 1 {
      assert LowestSeen(t1, key) == LowestSeen(c, key);
    } else if key > c.key {
      assert LowestSeen(RotateLeft(t1), key) == LowestSeen(c.right, key) == LowestSeen(c, key);
    } else {
      DoubleLow(t.left, t.key, t.value, c.left, c.key, c.value, c.right, key);
    }
  }

  lemma {:induction false} NewKeyLow(t: Tree<string>, key: int, value: string)
    requires Avl(t) && key !in Keys(t)
    ensures NewIsLow(t, Insert(t, key, value), key)
  {
    if t.Node? {
      if key < t.key {
        NewKeyLow(t.left, key, value);
        InsertLeftSpec(t, key, value);
        InsertBalanced(t.left, key, value);
        LowLeft(t, Insert(t.left, key, value), key);
      } else {
        NewKeyLow(t.right, key, value);
        InsertRightSpec(t, key, value);
        InsertBalanced(t.right, key, value);
        LowRight(t, Insert(t.right, key, value), key);
      }
    }
  }

  /** A path that runs through touched children from above the bound to below it. */
  lemma {:induction false} PathExposes(t: Tree<string>, key: int, bound: int, touched: set<int>)
    requires PathCached(t, key, touched) && Height(t) > bound && t.Node? && LowestSeen(t, key) <= bound
    ensures Exposed(touched, bound, t)
  {
    var c := if key < t.key then t.left else t.right;
    if Height(c) > bound { PathExposes(c, key, bound, touched); }
  }

  /** Inserting a new key puts the tree at risk if and only if the tree is now above
      the bound. */
  lemma {:induction false} NewKeyExposes(t: Tree<string>, key: int, value: string, bound: int)
    requires Avl(t) && key !in Keys(t) && bound >= 2
    ensures Exposed(Touched(t, key, value), bound, Insert(t, key, value)) <==> Height(Insert(t, key, value)) > bound
  {
    var t' := Insert(t, key, value);
    NewKeyPath(t, key, value);
    NewKeyLow(t, key, value);
    if Height(t') > bound {
      PathExposes(t', key, bound, Touched(t, key, value));
    } else {
      LowIsSafe(Touched(t, key, value), bound, t');
    }
  }

  /** Every run of insertions that outgrows the bound comes to one that puts the tree
      at risk: the one that takes it above. */
  lemma {:induction false} OutgrownIsExposed(pairs: seq<Pair>, bound: int) returns (k: nat)
    requires Height(InsertAll(Leaf, pairs)) > bound >= 2
    ensures k < |pairs|
    ensures var t, p := InsertAll(Leaf, pairs[..k]), pairs[k];
            && Avl(t) && Height(t) <= bound && InsertAll(Leaf, pairs[..k + 1]) == Insert(t, p.0, p.1)
            && Exposed(Touched(t, p.0, p.1), bound, Insert(t, p.0, p.1))
  {
    hide Insert, Height, Avl, Exposed, Touched;
    NothingStored();
    if pairs == [] { LeafIsLow(); }
    var n := |pairs| - 1;
    var t, p := InsertAll(Leaf, pairs[..n]), pairs[n];
    InsertAllAvl(Leaf, pairs[..n]);
    assert pairs[..n + 1] == pairs;
    if Height(t) > bound {
      k := OutgrownIsExposed(pairs[..n], bound);
      assert pairs[..n][..k] == pairs[..k] && pairs[..n][..k + 1] == pairs[..k + 1];
    } else {
      k := n;
      GrownIsNew(t, p.0, p.1);
      NewKeyExposes(t, p.0, p.1, bound);
    }
  }

  lemma LeafIsLow()
    ensures Height<string>(Leaf) == 0
  {
  }

  lemma GrownIsNew(t: Tree<string>, key: int, value: string)
    requires Avl(t) && Height(Insert(t, key, value)) > Height(t)
    ensures key !in Keys(t)
  {
    InsertBalanced(t, key, value);
  }

  // ----- a tree laid out -----

  function RootId(t: Tree<string>): int {
    if t.Leaf? then 0 else t.key
  }

  /** The nodes of a tree, all on the path to leaf 0. */
  ghost function Lay(t: Tree<string>): map<int, Node> {
    if t.Leaf? then map[]
    else (Lay(t.left) + Lay(t.right))[t.key := Box(Links(t.key, t.value, RootId(t.left), 0, RootId(t.right), 0,
                                                         Height(t)), 0)]
  }

  lemma {:induction false} LayIsRep(t: Tree<string>)
    requires Ordered(t) && 0 !in Keys(t)
    ensures Rep(Lay(t), RootId(t), 0, t) && Lay(t).Keys == Keys(t) && forall k :: k in Lay(t) ==> Lay(t)[k].pos == 0
  {
    if t.Node? {
      NotBelow(t);
      LayIsRep(t.left);
      LayIsRep(t.right);
      RepFrame(Lay(t.left), Lay(t), RootId(t.left), 0, t.left);
      RepFrame(Lay(t.right), Lay(t), RootId(t.right), 0, t.right);
    }
  }

  lemma {:induction false} AllCachedIsClosed(t: Tree<string>, cached: set<int>, modified: set<int>)
    requires Keys(t) <= cached
    ensures Closed(t, cached, modified)
  {
    if t.Node? {
      AllCachedIsClosed(t.left, cached, modified);
      AllCachedIsClosed(t.right, cached, modified);
    }
  }

  /** An outcome that loses the tree, from any layout in which it is exposed. */
  lemma LosingOutcome(v: View, bound: int, leaves: nat, id: int, pos: int, t: Tree<string>)
    returns (live': map<int, Node>)
    requires Holds(v, id, pos, t) && v.modified <= v.cached && leaves >= 2 && Exposed(v.modified, bound, t)
    requires forall k :: k in v.live ==> 0 <= v.live[k].pos < leaves
    ensures Outcome(v, live', bound, leaves) && !Reached(live', id, t)
  {
    hide *;
    RelinkSurely(v, bound, leaves, id, pos, t);
    live' := NotSurely(v, bound, leaves, id, t);
  }

  lemma NotSurely(v: View, bound: int, leaves: nat, id: int, t: Tree<string>) returns (live': map<int, Node>)
    requires !Surely(v, bound, leaves, id, t)
    ensures Outcome(v, live', bound, leaves) && !Reached(live', id, t)
  {
    live' :| Outcome(v, live', bound, leaves) && !Reached(live', id, t);
  }

  /** A balanced tree that is one level too high, its root and the higher child read. */
  ghost function RootRead(t: Tree<string>): View
    requires t.Node?
  {
    View(Lay(t), Keys(t), {t.key} + Root(if Height(t.left) >= Height(t.right) then t.left else t.right))
  }

  lemma {:induction false} RootReadIsExposed(t: Tree<string>)
    requires Avl(t) && Height(t) >= 2 && 0 !in Keys(t)
    ensures var v := RootRead(t); Holds(v, t.key, 0, t) && v.modified <= v.cached
    ensures forall k :: k in RootRead(t).live ==> RootRead(t).live[k].pos == 0
    ensures Exposed(RootRead(t).modified, Height(t) - 1, t)
  {
    LayIsRep(t);
    AllCachedIsClosed(t, Keys(t), RootRead(t).modified);
  }

  /** Relinking up to the height below such a tree can lose it. */
  lemma TooHighIsLost(t: Tree<string>, leaves: nat) returns (live': map<int, Node>)
    requires Avl(t) && Height(t) >= 2 && 0 !in Keys(t) && leaves >= 2
    ensures Holds(RootRead(t), t.key, 0, t)
    ensures Outcome(RootRead(t), live', Height(t) - 1, leaves) && !Reached(live', t.key, t)
  {
    hide *;
    HighIsNode(t);
    RootReadIsExposed(t);
    live' := LosingOutcome(RootRead(t), Height(t) - 1, leaves, t.key, 0, t);
  }

  lemma HighIsNode(t: Tree<string>)
    requires Height(t) >= 1
    ensures t.Node?
  {
  }

  /** The case of a map for 64 keys: 54 of them, on 16 leaves. */
  lemma SparsestIsLost() returns (t: Tree<string>, live': map<int, Node>)
    ensures Avl(t) && Size(t) == 54 && Height(t) == 8 && Holds(RootRead(t), t.key, 0, t)
    ensures Outcome(RootRead(t), live', 7, 16) && !Reached(live', t.key, t)
  {
    hide *;
    t := Sparsest(8, 1);
    SparsestIsAvl(8, 1);
    SmallMinSizes();
    NoNull(t, MinSize(8));
    HighIsNode(t);
    live' := TooHighIsLost(t, 16);
  }

  lemma NoNull(t: Tree<string>, n: nat)
    requires KeysIn(t, 1, 1 + n)
    ensures 0 !in Keys(t)
  {
  }
}

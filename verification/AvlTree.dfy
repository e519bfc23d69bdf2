/** Height-balanced search trees as values: what the linked nodes of the
    oblivious map stand for, and what an insertion owes to them. */
module AvlTree {

  datatype Tree<V> = Leaf | Node(left: Tree<V>, key: int, value: V, right: Tree<V>)

  function Height<V>(t: Tree<V>): nat {
    if t.Leaf? then 0 else Max(Height(t.left), Height(t.right)) + 1
  }

  function Max(a: int, b: int): int {
    if a > b then a else b
  }

  function Keys<V>(t: Tree<V>): set<int> {
    if t.Leaf? then {} else Keys(t.left) + {t.key} + Keys(t.right)
  }

  function Size<V>(t: Tree<V>): nat {
    if t.Leaf? then 0 else Size(t.left) + 1 + Size(t.right)
  }

  ghost predicate Ordered<V>(t: Tree<V>) {
    t.Node? ==>
      && Ordered(t.left) && Ordered(t.right)
      && (forall k :: k in Keys(t.left) ==> k < t.key)
      && (forall k :: k in Keys(t.right) ==> t.key < k)
  }

  ghost predicate Even<V>(t: Tree<V>) {
    t.Node? ==> -1 <= Height(t.left) - Height(t.right) <= 1
  }

  ghost predicate Balanced<V>(t: Tree<V>) {
    Even(t) && (t.Node? ==> Balanced(t.left) && Balanced(t.right))
  }

  ghost predicate Avl<V>(t: Tree<V>) {
    Ordered(t) && Balanced(t)
  }

  /** The map a tree stands for. */
  ghost function Contents<V>(t: Tree<V>): map<int, V> {
    if t.Leaf? then map[] else Contents(t.left) + Contents(t.right) + map[t.key := t.value]
  }

  lemma {:induction false} ContentsKeys<V>(t: Tree<V>)
    ensures Contents(t).Keys == Keys(t)
  {
    if t.Node? {
      ContentsKeys(t.left);
      ContentsKeys(t.right);
    }
  }

  // ----- insertion -----

  function RotateRight<V>(y: Tree<V>): Tree<V>
    requires y.Node? && y.left.Node?
  {
    var x := y.left;
    Node(x.left, x.key, x.value, Node(x.right, y.key, y.value, y.right))
  }

  function RotateLeft<V>(x: Tree<V>): Tree<V>
    requires x.Node? && x.right.Node?
  {
    var y := x.right;
    Node(Node(x.left, x.key, x.value, y.left), y.key, y.value, y.right)
  }

  function Balance<V>(t: Tree<V>): int
    requires t.Node?
  {
    Height(t.left) - Height(t.right)
  }

  /** The four cases after an insertion of key below t. */
  function Rebalance<V>(t: Tree<V>, key: int): Tree<V>
    requires t.Node?
  {
    if Balance(t) > 1 && key < t.left.key then RotateRight(t)
    else if Balance(t) < -1 && key > t.right.key then RotateLeft(t)
    else if Balance(t) > 1 && key > t.left.key && t.left.right.Node? then
      RotateRight(t.(left := RotateLeft(t.left)))
    else if Balance(t) < -1 && key < t.right.key && t.right.left.Node? then
      RotateLeft(t.(right := RotateRight(t.right)))
    else t
  }

  function Insert<V>(t: Tree<V>, key: int, value: V): Tree<V> {
    if t.Leaf? then Node(Leaf, key, value, Leaf)
    else if key < t.key then Rebalance(t.(left := Insert(t.left, key, value)), key)
    else if key > t.key then Rebalance(t.(right := Insert(t.right, key, value)), key)
    else t.(value := value)
  }

  lemma Reassociate<V>(a: map<int, V>, x: int, u: V, b: map<int, V>, y: int, v: V, c: map<int, V>)
    requires x != y && x !in c
    ensures (a + b + map[x := u]) + c + map[y := v] == a + (b + c + map[y := v]) + map[x := u]
  {
  }

  lemma RotateRightKeeps<V>(y: Tree<V>)
    requires y.Node? && y.left.Node? && Ordered(y)
    ensures Ordered(RotateRight(y)) && Keys(RotateRight(y)) == Keys(y)
    ensures Contents(RotateRight(y)) == Contents(y)
  {
    var x := y.left;
    assert x.key in Keys(x);
    assert Keys(y) == Keys(x) + {y.key} + Keys(y.right);
    assert Keys(x) == Keys(x.left) + {x.key} + Keys(x.right);
    ContentsKeys(y.right);
    Reassociate(Contents(x.left), x.key, x.value, Contents(x.right), y.key, y.value, Contents(y.right));
  }

  lemma RotateLeftKeeps<V>(x: Tree<V>)
    requires x.Node? && x.right.Node? && Ordered(x)
    ensures Ordered(RotateLeft(x)) && Keys(RotateLeft(x)) == Keys(x)
    ensures Contents(RotateLeft(x)) == Contents(x)
  {
    var y := RotateLeft(x);
    assert x.right.key in Keys(x.right);
    assert Keys(x) == Keys(x.left) + {x.key} + Keys(x.right);
    assert Keys(x.right) == Keys(x.right.left) + {x.right.key} + Keys(x.right.right);
    assert Keys(y.left) == Keys(x.left) + {x.key} + Keys(x.right.left);
    assert Ordered(y);
    RotateRightKeeps(y);
    assert RotateRight(y) == x;
  }

  lemma RebalanceKeeps<V>(t: Tree<V>, key: int)
    requires t.Node? && Ordered(t)
    ensures Ordered(Rebalance(t, key)) && Keys(Rebalance(t, key)) == Keys(t)
    ensures Contents(Rebalance(t, key)) == Contents(t)
  {
    hide Ordered, Keys, Contents, RotateLeft, RotateRight;
    OrderedParts(t);
    if Balance(t) > 1 && key < t.left.key {
      RotateRightKeeps(t);
    } else if Balance(t) < -1 && key > t.right.key {
      RotateLeftKeeps(t);
    } else if Balance(t) > 1 && key > t.left.key && t.left.right.Node? {
      RotateLeftKeeps(t.left);
      ReplaceLeft(t, RotateLeft(t.left));
      IsNode(t.left);
      RotateRightKeeps(t.(left := RotateLeft(t.left)));
    } else if Balance(t) < -1 && key < t.right.key && t.right.left.Node? {
      RotateRightKeeps(t.right);
      ReplaceRight(t, RotateRight(t.right));
      IsNode(t.right);
      RotateLeftKeeps(t.(right := RotateRight(t.right)));
    }
  }

  lemma OrderedParts<V>(t: Tree<V>)
    requires t.Node? && Ordered(t)
    ensures Ordered(t.left) && Ordered(t.right)
    ensures forall k :: k in Keys(t.left) ==> k < t.key
    ensures forall k :: k in Keys(t.right) ==> t.key < k
  {
  }

  lemma IsNode<V>(t: Tree<V>)
    ensures t.Node? && t.left.Node? ==> RotateRight(t).Node?
    ensures t.Node? && t.right.Node? ==> RotateLeft(t).Node?
  {
  }

  /** Only the keys of a subtree matter for the order of the whole. */
  lemma ReplaceLeft<V>(t: Tree<V>, l: Tree<V>)
    requires t.Node? && Ordered(t) && Ordered(l) && forall k :: k in Keys(l) ==> k < t.key
    ensures Ordered(t.(left := l))
    ensures Keys(t.(left := l)) == Keys(l) + {t.key} + Keys(t.right)
    ensures Contents(t.(left := l)) == Contents(l) + Contents(t.right) + map[t.key := t.value]
    ensures Keys(t) == Keys(t.left) + {t.key} + Keys(t.right)
    ensures Contents(t) == Contents(t.left) + Contents(t.right) + map[t.key := t.value]
  {
  }

  lemma ReplaceRight<V>(t: Tree<V>, r: Tree<V>)
    requires t.Node? && Ordered(t) && Ordered(r) && forall k :: k in Keys(r) ==> t.key < k
    ensures Ordered(t.(right := r))
    ensures Keys(t.(right := r)) == Keys(t.left) + {t.key} + Keys(r)
    ensures Contents(t.(right := r)) == Contents(t.left) + Contents(r) + map[t.key := t.value]
    ensures Keys(t) == Keys(t.left) + {t.key} + Keys(t.right)
    ensures Contents(t) == Contents(t.left) + Contents(t.right) + map[t.key := t.value]
  {
  }

  /** An insertion keeps the order and changes the map at its key only. */
  lemma {:induction false} InsertMap<V>(t: Tree<V>, key: int, value: V)
    requires Ordered(t)
    ensures Ordered(Insert(t, key, value)) && Keys(Insert(t, key, value)) == Keys(t) + {key}
    ensures Contents(Insert(t, key, value)) == Contents(t)[key := value]
  {
    hide Rebalance;
    if t.Node? {
      if key < t.key {
        InsertMap(t.left, key, value);
        InsertLeft(t, key, value);
        RebalanceKeeps(t.(left := Insert(t.left, key, value)), key);
      } else if key > t.key {
        InsertMap(t.right, key, value);
        InsertRight(t, key, value);
        RebalanceKeeps(t.(right := Insert(t.right, key, value)), key);
      } else {
        SameKey(t, value);
      }
    }
  }

  lemma SameKey<V>(t: Tree<V>, value: V)
    requires t.Node? && Ordered(t)
    ensures Ordered(t.(value := value)) && Keys(t.(value := value)) == Keys(t)
    ensures Contents(t.(value := value)) == Contents(t)[t.key := value]
    ensures t.key in Keys(t)
  {
  }

  lemma InsertLeft<V>(t: Tree<V>, key: int, value: V)
    requires t.Node? && Ordered(t) && key < t.key
    requires var l := Insert(t.left, key, value);
             Ordered(l) && Keys(l) == Keys(t.left) + {key} && Contents(l) == Contents(t.left)[key := value]
    ensures var t' := t.(left := Insert(t.left, key, value));
            Ordered(t') && Keys(t') == Keys(t) + {key} && Contents(t') == Contents(t)[key := value]
  {
    hide Insert;
    ReplaceLeft(t, Insert(t.left, key, value));
    ContentsKeys(t.right);
    OutOfOrder(t, key);
    hide Contents, Keys, Ordered;
    UpdateLeft(Contents(t.left), Contents(t.right), t.key, t.value, key, value);
  }

  lemma InsertRight<V>(t: Tree<V>, key: int, value: V)
    requires t.Node? && Ordered(t) && key > t.key
    requires var r := Insert(t.right, key, value);
             Ordered(r) && Keys(r) == Keys(t.right) + {key} && Contents(r) == Contents(t.right)[key := value]
    ensures var t' := t.(right := Insert(t.right, key, value));
            Ordered(t') && Keys(t') == Keys(t) + {key} && Contents(t') == Contents(t)[key := value]
  {
    hide Insert;
    ReplaceRight(t, Insert(t.right, key, value));
    hide Contents, Keys, Ordered;
    UpdateRight(Contents(t.left), Contents(t.right), t.key, t.value, key, value);
  }

  lemma OutOfOrder<V>(t: Tree<V>, key: int)
    requires t.Node? && Ordered(t)
    ensures key < t.key ==> key !in Keys(t.right)
    ensures key > t.key ==> key !in Keys(t.left)
  {
  }

  lemma UpdateLeft<V>(a: map<int, V>, b: map<int, V>, x: int, u: V, key: int, value: V)
    requires key !in b && key != x
    ensures a[key := value] + b + map[x := u] == (a + b + map[x := u])[key := value]
  {
  }

  lemma UpdateRight<V>(a: map<int, V>, b: map<int, V>, x: int, u: V, key: int, value: V)
    requires key != x
    ensures a + b[key := value] + map[x := u] == (a + b + map[x := u])[key := value]
  {
  }

  // ----- balance -----

  /** A tree that grew by one is heavier on the side of the key. */
  ghost predicate Leans<V>(t: Tree<V>, key: int) {
    t.Node? && ((t.left.Leaf? && t.right.Leaf?)
                || (key < t.key && Balance(t) == 1) || (key > t.key && Balance(t) == -1))
  }

  /** An insertion keeps the balance, grows the tree by at most one level, and
      every rotation finds the nodes it needs. */
  lemma {:induction false} InsertBalanced<V>(t: Tree<V>, key: int, value: V)
    requires Balanced(t)
    ensures Balanced(Insert(t, key, value))
    ensures Height(t) <= Height(Insert(t, key, value)) <= Height(t) + 1
    ensures Height(Insert(t, key, value)) > Height(t) ==> Leans(Insert(t, key, value), key)
    ensures key in Keys(t) && Ordered(t) ==> Height(Insert(t, key, value)) == Height(t)
  {
    hide Rebalance;
    if t.Node? {
      if Ordered(t) { OutOfOrder(t, key); }
      if key < t.key {
        InsertBalanced(t.left, key, value);
        RebalanceLeft(t, Insert(t.left, key, value), key);
      } else if key > t.key {
        InsertBalanced(t.right, key, value);
        RebalanceRight(t, Insert(t.right, key, value), key);
      }
    }
  }

  lemma {:induction false} RebalanceLeft<V>(t: Tree<V>, l: Tree<V>, key: int)
    requires t.Node? && Balanced(t) && key < t.key && Balanced(l) && l.Node?
    requires Height(t.left) <= Height(l) <= Height(t.left) + 1
    requires Height(l) > Height(t.left) ==> Leans(l, key)
    ensures var t1 := t.(left := l); var t' := Rebalance(t1, key);
            && Balanced(t') && Height(t) <= Height(t') <= Height(t) + 1
            && (Height(t') > Height(t) ==> Leans(t', key))
            && (Height(l) == Height(t.left) ==> t' == t1 && Height(t') == Height(t))
            && Balance(t1) >= -1
            && (Balance(t1) > 1 ==> key != l.key && (key > l.key ==> l.right.Node?))
  {
  }

  lemma {:induction false} RebalanceRight<V>(t: Tree<V>, r: Tree<V>, key: int)
    requires t.Node? && Balanced(t) && key > t.key && Balanced(r) && r.Node?
    requires Height(t.right) <= Height(r) <= Height(t.right) + 1
    requires Height(r) > Height(t.right) ==> Leans(r, key)
    ensures var t1 := t.(right := r); var t' := Rebalance(t1, key);
            && Balanced(t') && Height(t) <= Height(t') <= Height(t) + 1
            && (Height(t') > Height(t) ==> Leans(t', key))
            && (Height(r) == Height(t.right) ==> t' == t1 && Height(t') == Height(t))
            && Balance(t1) <= 1
            && (Balance(t1) < -1 ==> key != r.key && (key < r.key ==> r.left.Node?))
  {
  }

  // ----- lookup -----

  /** A search may follow the order. */
  lemma {:induction false} LookupSide<V>(t: Tree<V>, key: int)
    requires t.Node? && Ordered(t)
    ensures key < t.key ==> (key in Contents(t) <==> key in Contents(t.left))
    ensures key < t.key && key in Contents(t) ==> Contents(t)[key] == Contents(t.left)[key]
    ensures key > t.key ==> (key in Contents(t) <==> key in Contents(t.right))
    ensures key > t.key && key in Contents(t) ==> Contents(t)[key] == Contents(t.right)[key]
    ensures key == t.key ==> key in Contents(t) && Contents(t)[key] == t.value
  {
    ContentsKeys(t.left);
    ContentsKeys(t.right);
    OutOfOrder(t, key);
  }

  /** What single searches for each of the keys would find, together. */
  ghost function FoundAll<V>(m: map<int, V>, keys: seq<int>): multiset<V> {
    if keys == [] then multiset{}
    else
      var k := keys[|keys| - 1];
      FoundAll(m, keys[..|keys| - 1]) + (if k in m then multiset{m[k]} else multiset{})
  }

  lemma FoundAllStep<V>(m: map<int, V>, keys: seq<int>, k: int)
    ensures FoundAll(m, keys + [k]) == FoundAll(m, keys) + (if k in m then multiset{m[k]} else multiset{})
  {
    assert (keys + [k])[..|keys|] == keys;
  }

  // ----- height and size -----

  /** The fewest keys of a balanced tree of height h. */
  function MinSize(h: nat): nat {
    if h <= 1 then h else MinSize(h - 1) + MinSize(h - 2) + 1
  }

  lemma SmallMinSizes()
    ensures MinSize(8) == 54
  {
    assert MinSize(2) == 2 && MinSize(3) == 4 && MinSize(4) == 7;
    assert MinSize(5) == 12 && MinSize(6) == 20 && MinSize(7) == 33;
  }

  lemma {:induction false} MinSizeGrows(a: nat, b: nat)
    requires a <= b
    ensures MinSize(a) <= MinSize(b)
    decreases b
  {
    if a < b { MinSizeGrows(a, b - 1); }
  }

  lemma {:induction false} SizeAtLeast<V>(t: Tree<V>)
    requires Balanced(t)
    ensures Size(t) >= MinSize(Height(t))
  {
    if t.Node? {
      SizeAtLeast(t.left);
      SizeAtLeast(t.right);
      SizesAdd(Height(t.left), Height(t.right), Size(t.left), Size(t.right));
    }
  }

  lemma SizesAdd(l: nat, r: nat, sizeL: nat, sizeR: nat)
    requires -1 <= l - r <= 1 && sizeL >= MinSize(l) && sizeR >= MinSize(r)
    ensures sizeL + 1 + sizeR >= MinSize(Max(l, r) + 1)
  {
    hide MinSize;
    MinSizeStep(Max(l, r) + 1);
    if l > r {
      MinSizeGrows(l - 1, r);
    } else if r > 0 {
      MinSizeGrows(r - 1, l);
    }
  }

  lemma MinSizeStep(h: nat)
    ensures MinSize(h) == if h <= 1 then h else MinSize(h - 1) + MinSize(h - 2) + 1
  {
  }

  /** A sparsest tree of height h with the keys from lo on. */
  function Sparsest(h: nat, lo: int): Tree<string> {
    if h == 0 then Leaf
    else if h == 1 then Node(Leaf, lo, "", Leaf)
    else
      var k := lo + MinSize(h - 1);
      Node(Sparsest(h - 1, lo), k, "", Sparsest(h - 2, k + 1))
  }

  lemma {:induction false} SparsestIsAvl(h: nat, lo: int)
    ensures var t := Sparsest(h, lo);
            Avl(t) && Height(t) == h && Size(t) == MinSize(h) && KeysIn(t, lo, lo + MinSize(h))
  {
    hide *;
    if h < 2 {
      SparsestSmall(h, lo);
    } else {
      SparsestIsAvl(h - 1, lo);
      SparsestIsAvl(h - 2, lo + MinSize(h - 1) + 1);
      SparsestStep(h, lo);
    }
  }

  lemma {:induction false} SparsestStep(h: nat, lo: int)
    requires h >= 2
    requires var t := Sparsest(h - 1, lo);
      Avl(t) && Height(t) == h - 1 && Size(t) == MinSize(h - 1) && KeysIn(t, lo, lo + MinSize(h - 1))
    requires var k := lo + MinSize(h - 1); var t := Sparsest(h - 2, k + 1);
      Avl(t) && Height(t) == h - 2 && Size(t) == MinSize(h - 2) && KeysIn(t, k + 1, k + 1 + MinSize(h - 2))
    ensures var t := Sparsest(h, lo);
            Avl(t) && Height(t) == h && Size(t) == MinSize(h) && KeysIn(t, lo, lo + MinSize(h))
  {
    hide *;
    var k := lo + MinSize(h - 1);
    SparsestUnfold(h, lo);
    SparsestJoin(Sparsest(h - 1, lo), k, Sparsest(h - 2, k + 1), lo, lo + MinSize(h));
  }

  ghost predicate KeysIn<V>(t: Tree<V>, lo: int, hi: int) {
    forall k :: k in Keys(t) ==> lo <= k < hi
  }

  lemma {:induction false} SparsestJoin(l: Tree<string>, k: int, r: Tree<string>, lo: int, hi: int)
    requires Avl(l) && Avl(r) && Height(l) == Height(r) + 1 && lo <= k < hi
    requires KeysIn(l, lo, k) && KeysIn(r, k + 1, hi)
    ensures var t := Node(l, k, "", r);
            Avl(t) && Height(t) == Height(l) + 1 && Size(t) == Size(l) + 1 + Size(r) && KeysIn(t, lo, hi)
  {
    hide Avl, Height, Size, Keys;
    JoinAvl(l, k, "", r);
  }

  lemma {:induction false} SparsestSmall(h: nat, lo: int)
    requires h < 2
    ensures var t := Sparsest(h, lo);
            Avl(t) && Height(t) == h && Size(t) == MinSize(h) && KeysIn(t, lo, lo + MinSize(h))
  {
  }

  lemma SparsestUnfold(h: nat, lo: int)
    requires h >= 2
    ensures MinSize(h) == MinSize(h - 1) + MinSize(h - 2) + 1
    ensures var k := lo + MinSize(h - 1); Sparsest(h, lo) == Node(Sparsest(h - 1, lo), k, "", Sparsest(h - 2, k + 1))
  {
  }

  /** Two balanced search trees of about the same height around a key. */
  lemma {:induction false} JoinAvl<V>(l: Tree<V>, k: int, v: V, r: Tree<V>)
    requires Avl(l) && Avl(r) && -1 <= Height(l) - Height(r) <= 1
    requires forall x :: x in Keys(l) ==> x < k
    requires forall x :: x in Keys(r) ==> k < x
    ensures var t := Node(l, k, v, r);
            && Avl(t) && Keys(t) == Keys(l) + {k} + Keys(r)
            && Height(t) == Max(Height(l), Height(r)) + 1 && Size(t) == Size(l) + 1 + Size(r)
            && (Height(l) >= Height(r) ==> Height(t) == Height(l) + 1)
  {
  }

  /** Few nodes make a low tree. */
  lemma LowBySize<V>(t: Tree<V>, bound: nat)
    requires Avl(t) && Size(t) < MinSize(bound + 1)
    ensures Height(t) <= bound
  {
    SizeAtLeast(t);
    if Height(t) > bound { MinSizeGrows(bound + 1, Height(t)); }
  }

  lemma CountAround(a: set<int>, k: int, b: set<int>)
    requires k !in a && k !in b && a !! b
    ensures |a + {k} + b| == |a| + 1 + |b|
  {
    assert |a + {k}| == |a| + 1;
  }

  lemma {:induction false} SizeIsCount<V>(t: Tree<V>)
    requires Ordered(t)
    ensures Size(t) == |Keys(t)|
  {
    if t.Node? {
      SizeIsCount(t.left);
      SizeIsCount(t.right);
      forall k | k in Keys(t.left) ensures k !in Keys(t.right) { assert k < t.key; }
      CountAround(Keys(t.left), t.key, Keys(t.right));
    }
  }
}

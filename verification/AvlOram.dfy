/** The balanced tree whose nodes live in the oblivious store. Every method is
    tied to the tree it stands for, given as a ghost argument. */
module AvlOram {
  import opened AvlTree
  import opened OramState
  import opened AvlStore
  import opened NodeOram

  lemma HoldsBody(v: View, id: int, pos: int, t: Tree<string>)
    requires Holds(v, id, pos, t) && t.Node? && id in v.cached
    ensures Body(v, id, t)
  {
  }

  lemma {:induction false} NotBelow(t: Tree<string>)
    requires t.Node? && Ordered(t)
    ensures t.key !in Keys(t.left) && t.key !in Keys(t.right) && Keys(t.left) !! Keys(t.right)
    ensures Ordered(t.left) && Ordered(t.right)
    ensures Keys(t) == Keys(t.left) + {t.key} + Keys(t.right)
    ensures Root(t.left) <= Keys(t.left) && Root(t.right) <= Keys(t.right)
  {
    forall k | k in Keys(t.left) ensures k !in Keys(t.right) { assert k < t.key; }
  }

  /** The root may get another height. */
  lemma BodyHeight(v: View, v': View, id: int, t: Tree<string>, h: int)
    requires Body(v, id, t) && Ordered(t) && Steps(v, v', {id}) && id in v'.live
    requires v'.live[id] == v.live[id].(value := v.live[id].value.(height := h))
    ensures Body(v', id, t)
  {
    hide Holds;
    NotBelow(t);
    var n := v.live[id].value;
    HoldsFrame(v, v', {id}, n.leftID, n.leftPos, t.left);
    HoldsFrame(v, v', {id}, n.rightID, n.rightPos, t.right);
  }

  /** Reading the root of one subtree leaves the node above as it was. */
  lemma BodyReadLeft(v: View, v': View, id: int, t: Tree<string>)
    requires Body(v, id, t) && Ordered(t) && Reads(v, v', t.left)
    ensures Body(v', id, t) && Steps(v, v', Root(t.left))
  {
    NotBelow(t);
    var n := v.live[id].value;
    ReadsHolds(v, v', n.leftID, n.leftPos, t.left);
    HoldsFrame(v, v', Root(t.left), n.rightID, n.rightPos, t.right);
  }

  lemma BodyReadRight(v: View, v': View, id: int, t: Tree<string>)
    requires Body(v, id, t) && Ordered(t) && Reads(v, v', t.right)
    ensures Body(v', id, t) && Steps(v, v', Root(t.right))
  {
    NotBelow(t);
    var n := v.live[id].value;
    ReadsHolds(v, v', n.rightID, n.rightPos, t.right);
    HoldsFrame(v, v', Root(t.right), n.leftID, n.leftPos, t.left);
  }

  /** A new left subtree below a node, once the links name it. */
  lemma BodyLeft(v: View, v1: View, v2: View, id: int, t: Tree<string>, keys: set<int>, l: Tree<string>, lid: int,
                 lpos: int)
    requires Body(v, id, t) && Steps(v, v1, keys) && id !in keys && Keys(t.right) !! keys
    requires Holds(v1, lid, lpos, l) && id !in Keys(l) && id !in Keys(t.right)
    requires Steps(v1, v2, {id}) && id in v2.live
    requires v2.live[id] == v.live[id].(value := v.live[id].value.(leftID := lid, leftPos := lpos))
    ensures Body(v2, id, t.(left := l))
  {
    hide Holds;
    var n := v.live[id].value;
    HoldsFrame(v, v1, keys, n.rightID, n.rightPos, t.right);
    HoldsFrame(v1, v2, {id}, n.rightID, n.rightPos, t.right);
    HoldsFrame(v1, v2, {id}, lid, lpos, l);
  }

  lemma BodyRight(v: View, v1: View, v2: View, id: int, t: Tree<string>, keys: set<int>, r: Tree<string>, rid: int,
                  rpos: int)
    requires Body(v, id, t) && Steps(v, v1, keys) && id !in keys && Keys(t.left) !! keys
    requires Holds(v1, rid, rpos, r) && id !in Keys(r) && id !in Keys(t.left)
    requires Steps(v1, v2, {id}) && id in v2.live
    requires v2.live[id] == v.live[id].(value := v.live[id].value.(rightID := rid, rightPos := rpos))
    ensures Body(v2, id, t.(right := r))
  {
    hide Holds;
    var n := v.live[id].value;
    HoldsFrame(v, v1, keys, n.leftID, n.leftPos, t.left);
    HoldsFrame(v1, v2, {id}, n.leftID, n.leftPos, t.left);
    HoldsFrame(v1, v2, {id}, rid, rpos, r);
  }

  // ----- rotations -----

  /** The two assignments of a right rotation: y links to T2, x to y. */
  ghost predicate RightLinks(v: View, v2: View, x: int, y: int, t2id: int, t2pos: int) {
    && x in v.live && y in v.live && v2.cached == v.cached && v2.modified == v.modified
    && v2.live == v.live[x := v.live[x].(value := v.live[x].value.(rightID := y, rightPos := v.live[y].pos))]
                        [y := v.live[y].(value := v.live[y].value.(leftID := t2id, leftPos := t2pos))]
  }

  ghost predicate LeftLinks(v: View, v2: View, x: int, y: int, t2id: int, t2pos: int) {
    && x in v.live && y in v.live && v2.cached == v.cached && v2.modified == v.modified
    && v2.live == v.live[y := v.live[y].(value := v.live[y].value.(leftID := x, leftPos := v.live[x].pos))]
                        [x := v.live[x].(value := v.live[x].value.(rightID := t2id, rightPos := t2pos))]
  }

  /** T2 of a rotation: the subtree's own id and position, or a null id. */
  ghost predicate Middle(v: View, id: int, pos: int, t2id: int, t2pos: int, t: Tree<string>) {
    if t.Leaf? then t2id == 0 else t2id == id && t2pos == pos
  }

  lemma {:induction false} RightKeys(t: Tree<string>)
    requires t.Node? && t.left.Node? && Ordered(t)
    ensures var x, y := t.left.key, t.key;
            && x != y && {x, y} !! Keys(t.left.left) && {x, y} !! Keys(t.left.right) && {x, y} !! Keys(t.right)
            && {x, y} <= Keys(t) && Keys(RotateRight(t).right) <= Keys(t) && x !in Keys(RotateRight(t).right)
            && Keys(t.left.left) !! Keys(RotateRight(t).right)
            && Ordered(RotateRight(t)) && Ordered(RotateRight(t).right) && Keys(RotateRight(t)) == Keys(t)
  {
    NotBelow(t);
    NotBelow(t.left);
    assert t.left.key in Keys(t.left);
    RotateRightKeeps(t);
    NotBelow(RotateRight(t));
  }

  lemma {:induction false} LeftKeys(t: Tree<string>)
    requires t.Node? && t.right.Node? && Ordered(t)
    ensures var x, y := t.key, t.right.key;
            && x != y && {x, y} !! Keys(t.left) && {x, y} !! Keys(t.right.left) && {x, y} !! Keys(t.right.right)
            && {x, y} <= Keys(t) && Keys(RotateLeft(t).left) <= Keys(t) && y !in Keys(RotateLeft(t).left)
            && Keys(t.right.right) !! Keys(RotateLeft(t).left)
            && Ordered(RotateLeft(t)) && Ordered(RotateLeft(t).left) && Keys(RotateLeft(t)) == Keys(t)
  {
    NotBelow(t);
    NotBelow(t.right);
    assert t.right.key in Keys(t.right);
    RotateLeftKeeps(t);
    NotBelow(RotateLeft(t));
  }

  /** After the assignments of a right rotation, y carries the lower half. */
  lemma {:induction false} RotateRightLower(v: View, v2: View, y: int, t2id: int, t2pos: int, t: Tree<string>)
    requires Body(v, y, t) && Ordered(t) && t.left.Node? && t.left.key in v.cached
    requires Middle(v, v.live[t.left.key].value.rightID, v.live[t.left.key].value.rightPos, t2id, t2pos, t.left.right)
    requires RightLinks(v, v2, t.left.key, y, t2id, t2pos)
    ensures Body(v2, y, RotateRight(t).right) && Steps(v, v2, {t.left.key, y})
    ensures var n := v2.live[t.left.key].value;
            && Holds(v2, n.leftID, n.leftPos, t.left.left) && n.key == t.left.key && n.value == t.left.value
            && n.rightID == y && n.rightPos == v2.live[y].pos
  {
    hide Keys, Ordered;
    RightKeys(t);
    var x := t.left.key;
    var nx, ny := v.live[x].value, v.live[y].value;
    HoldsFrame(v, v2, {x, y}, nx.leftID, nx.leftPos, t.left.left);
    HoldsFrame(v, v2, {x, y}, nx.rightID, nx.rightPos, t.left.right);
    HoldsFrame(v, v2, {x, y}, ny.rightID, ny.rightPos, t.right);
  }

  lemma {:induction false} RotateLeftLower(v: View, v2: View, x: int, t2id: int, t2pos: int, t: Tree<string>)
    requires Body(v, x, t) && Ordered(t) && t.right.Node? && t.right.key in v.cached
    requires Middle(v, v.live[t.right.key].value.leftID, v.live[t.right.key].value.leftPos, t2id, t2pos, t.right.left)
    requires LeftLinks(v, v2, x, t.right.key, t2id, t2pos)
    ensures Body(v2, x, RotateLeft(t).left) && Steps(v, v2, {x, t.right.key})
    ensures var n := v2.live[t.right.key].value;
            && Holds(v2, n.rightID, n.rightPos, t.right.right) && n.key == t.right.key && n.value == t.right.value
            && n.leftID == x && n.leftPos == v2.live[x].pos
  {
    hide Keys, Ordered;
    LeftKeys(t);
    var y := t.right.key;
    var nx, ny := v.live[x].value, v.live[y].value;
    HoldsFrame(v, v2, {x, y}, ny.rightID, ny.rightPos, t.right.right);
    HoldsFrame(v, v2, {x, y}, ny.leftID, ny.leftPos, t.right.left);
    HoldsFrame(v, v2, {x, y}, nx.leftID, nx.leftPos, t.left);
  }

  /** With the lower half complete, x carries the rotated tree. */
  lemma {:induction false} RotateRightUpper(v2: View, v3: View, y: int, t: Tree<string>)
    requires t.Node? && t.left.Node? && Ordered(t) && y == t.key
    requires var x := t.left.key;
      && x != 0 && x in v2.cached && x in v2.live && v2.live[x].value.key == x && v2.live[x].value.value == t.left.value
      && Holds(v2, v2.live[x].value.leftID, v2.live[x].value.leftPos, t.left.left)
      && v2.live[x].value.rightID == y
      && Steps(v2, v3, Keys(RotateRight(t).right))
      && y in v3.live && Holds(v3, y, v3.live[y].pos, RotateRight(t).right)
      && v3.live[y].pos == v2.live[x].value.rightPos
    ensures Body(v3, t.left.key, RotateRight(t)) && v3.live[t.left.key] == v2.live[t.left.key]
  {
    hide Keys, Ordered, Holds;
    RightKeys(t);
    var n := v2.live[t.left.key].value;
    HoldsFrame(v2, v3, Keys(RotateRight(t).right), n.leftID, n.leftPos, t.left.left);
  }

  lemma {:induction false} RotateLeftUpper(v2: View, v3: View, x: int, t: Tree<string>)
    requires t.Node? && t.right.Node? && Ordered(t) && x == t.key
    requires var y := t.right.key;
      && y != 0 && y in v2.cached && y in v2.live && v2.live[y].value.key == y
      && v2.live[y].value.value == t.right.value
      && Holds(v2, v2.live[y].value.rightID, v2.live[y].value.rightPos, t.right.right)
      && v2.live[y].value.leftID == x
      && Steps(v2, v3, Keys(RotateLeft(t).left))
      && x in v3.live && Holds(v3, x, v3.live[x].pos, RotateLeft(t).left) && v3.live[x].pos == v2.live[y].value.leftPos
    ensures Body(v3, t.right.key, RotateLeft(t)) && v3.live[t.right.key] == v2.live[t.right.key]
  {
    hide Keys, Ordered, Holds;
    LeftKeys(t);
    var n := v2.live[t.right.key].value;
    HoldsFrame(v2, v3, Keys(RotateLeft(t).left), n.rightID, n.rightPos, t.right.right);
  }

  // ----- the four cases -----

  /** What the rebalancing step may rely on: a lopsided node was reached by an
      insertion of a new key on its heavy side. */
  ghost predicate Fixable(t: Tree<string>, key: int) {
    && t.Node? && key != t.key
    && (Balance(t) > 1 ==>
          key < t.key && t.left.Node? && key != t.left.key && (key > t.left.key ==> t.left.right.Node?))
    && (Balance(t) < -1 ==>
          key > t.key && t.right.Node? && key != t.right.key && (key < t.right.key ==> t.right.left.Node?))
  }

  /** The subtree that the insertion of key went into has its path cached. */
  ghost predicate SideCached(t: Tree<string>, key: int, cached: set<int>)
    requires t.Node?
  {
    PathCached(if key < t.key then t.left else t.right, key, cached)
  }

  lemma {:induction false} PathStays(t: Tree<string>, key: int, cached: set<int>)
    requires t.Node? && key != t.key && SideCached(t, key, cached) && RootsIn(t, cached)
    ensures PathCached(t, key, cached)
  {
  }

  lemma {:induction false} PathRightRotated(t: Tree<string>, key: int, cached: set<int>)
    requires t.Node? && t.left.Node? && key < t.left.key && key < t.key && SideCached(t, key, cached)
    requires RootsIn(RotateRight(t), cached) && RootsIn(RotateRight(t).right, cached)
    ensures PathCached(RotateRight(t), key, cached)
  {
  }

  lemma {:induction false} PathLeftRotated(t: Tree<string>, key: int, cached: set<int>)
    requires t.Node? && t.right.Node? && key > t.right.key && key > t.key && SideCached(t, key, cached)
    requires RootsIn(RotateLeft(t), cached) && RootsIn(RotateLeft(t).left, cached)
    ensures PathCached(RotateLeft(t), key, cached)
  {
  }

  lemma {:induction false} PathLeftRight(t: Tree<string>, key: int, cached: set<int>)
    requires t.Node? && t.left.Node? && t.left.right.Node? && t.left.key < key < t.key && t.left.right.key < t.key
    requires SideCached(t, key, cached) && t.left.key < t.left.right.key
    requires var d := RotateRight(t.(left := RotateLeft(t.left)));
             RootsIn(d, cached) && RootsIn(d.right, cached) && RootsIn(d.left, cached)
    ensures PathCached(RotateRight(t.(left := RotateLeft(t.left))), key, cached)
  {
    assert PathCached(t.left.right, key, cached);
  }

  lemma {:induction false} PathRightLeft(t: Tree<string>, key: int, cached: set<int>)
    requires t.Node? && t.right.Node? && t.right.left.Node? && t.key < key < t.right.key && t.key < t.right.left.key
    requires SideCached(t, key, cached) && t.right.left.key < t.right.key
    requires var d := RotateLeft(t.(right := RotateRight(t.right)));
             RootsIn(d, cached) && RootsIn(d.left, cached) && RootsIn(d.right, cached)
    ensures PathCached(RotateLeft(t.(right := RotateRight(t.right))), key, cached)
  {
    assert PathCached(t.right.left, key, cached);
  }

  // ----- which nodes an operation touches -----

  /** The nodes that a search for the key reads. */
  ghost function Seen(t: Tree<string>, key: int): set<int> {
    if t.Leaf? then {}
    else if key == t.key then {key}
    else {t.key} + if key < t.key then Seen(t.left, key) else Seen(t.right, key)
  }

  /** The nodes that one search for several keys reads: the root in any case. */
  ghost function SeenAll(t: Tree<string>, keys: seq<int>): set<int> {
    Root(t) + set k, x | k in keys && x in Seen(t, k) :: x
  }

  /** The keys on either side of a node, and what a search for them reads below it. */
  lemma {:induction false} SeenSides(t: Tree<string>, keys: seq<int>, left: seq<int>, right: seq<int>)
    requires t.Node? && Sides(t, keys, left, right)
    ensures SeenAll(t, keys) == {t.key} + (if left != [] then SeenAll(t.left, left) else {})
                                        + (if right != [] then SeenAll(t.right, right) else {})
  {
    forall k | k in keys
      ensures Seen(t, k) == {t.key} + (if k < t.key then Seen(t.left, k) else {})
                                    + (if k > t.key then Seen(t.right, k) else {}) {
    }
    if left != [] { RootSeen(t.left, left[0]); }
    if right != [] { RootSeen(t.right, right[0]); }
    forall x ensures x in SeenAll(t, keys)
      <==> x == t.key || (left != [] && x in SeenAll(t.left, left)) || (right != [] && x in SeenAll(t.right, right)) {
      SeenIn(t, keys, x);
      SeenIn(t.left, left, x);
      SeenIn(t.right, right, x);
      hide SeenAll;
      if left != [] && x in Root(t.left) { assert left[0] in keys && x in Seen(t, left[0]); }
      if right != [] && x in Root(t.right) { assert right[0] in keys && x in Seen(t, right[0]); }
    }
  }

  lemma {:induction false} SeenNothing(t: Tree<string>, keys: seq<int>)
    requires t.Leaf?
    ensures SeenAll(t, keys) == {}
  {
  }

  lemma SeenIn(t: Tree<string>, keys: seq<int>, x: int)
    ensures x in SeenAll(t, keys) <==> x in Root(t) || exists k :: k in keys && x in Seen(t, k)
  {
  }

  ghost predicate Sides(t: Tree<string>, keys: seq<int>, left: seq<int>, right: seq<int>)
    requires t.Node?
  {
    && (forall k :: k in left <==> k in keys && k < t.key)
    && (forall k :: k in right <==> k in keys && k > t.key)
  }

  lemma RootSeen(t: Tree<string>, key: int)
    ensures Root(t) <= Seen(t, key)
  {
  }


  ghost function RightTouches(t: Tree<string>): set<int>
    requires t.Node? && t.left.Node?
  {
    {t.key, t.left.key} + Root(t.left.left) + Root(t.left.right) + Root(t.right)
  }

  ghost function LeftTouches(t: Tree<string>): set<int>
    requires t.Node? && t.right.Node?
  {
    {t.key, t.right.key} + Root(t.left) + Root(t.right.left) + Root(t.right.right)
  }

  /** The two nodes that a rotation completes, with their children. */
  lemma RightTouched(m: set<int>, t: Tree<string>)
    requires t.Node? && t.left.Node?
    ensures var d := RotateRight(t);
            m + (Root(d.right.left) + Root(d.right.right) + {t.key}) + (Root(d.left) + Root(d.right) + {t.left.key})
            == m + RightTouches(t)
  {
  }

  lemma LeftTouched(m: set<int>, t: Tree<string>)
    requires t.Node? && t.right.Node?
    ensures var d := RotateLeft(t);
            m + (Root(d.left.left) + Root(d.left.right) + {t.key}) + (Root(d.left) + Root(d.right) + {t.right.key})
            == m + LeftTouches(t)
  {
  }

  /** The nodes that the four cases touch at a node. */
  ghost function RotateTouches(t: Tree<string>, key: int): set<int>
    requires t.Node?
  {
    if Balance(t) > 1 && t.left.Node? && key < t.left.key then RightTouches(t)
    else if Balance(t) > 1 && t.left.Node? && t.left.right.Node? then
      LeftTouches(t.left) + {t.key} + RightTouches(t.(left := RotateLeft(t.left)))
    else if Balance(t) < -1 && t.right.Node? && key > t.right.key then LeftTouches(t)
    else if Balance(t) < -1 && t.right.Node? && t.right.left.Node? then
      RightTouches(t.right) + {t.key} + LeftTouches(t.(right := RotateRight(t.right)))
    else {t.key}
  }

  ghost function FixTouches(t: Tree<string>, key: int): set<int>
    requires t.Node?
  {
    Root(t.left) + Root(t.right) + RotateTouches(t, key)
  }

  /** The nodes that an insertion reads or writes. */
  ghost function Touched(t: Tree<string>, key: int, value: string): set<int> {
    if t.Leaf? then {key}
    else if key == t.key then {key}
    else if key < t.key then
      {t.key} + Touched(t.left, key, value) + FixTouches(t.(left := AvlTree.Insert(t.left, key, value)), key)
    else
      {t.key} + Touched(t.right, key, value) + FixTouches(t.(right := AvlTree.Insert(t.right, key, value)), key)
  }

  class Handler {
    const oram: Store

    constructor (oram: Store)
      ensures this.oram == oram
    {
      this.oram := oram;
    }

    /** height: reads the node, unless the id is null. */
    method NodeHeight(id: int, pos: int, ghost t: Tree<string>) returns (h: int)
      requires oram.Busy() && Holds(oram.Now(), id, pos, t) && Ordered(t)
      modifies oram
      ensures oram.Busy() && h == Height(t)
      ensures Reads(old(oram.Now()), oram.Now(), t)
    {
      hide Store.Busy;
      if id == 0 { return 0; }
      var node := oram.ReadNode(id, pos);
      h := node.value.height;
    }

    /** Heights of both subtrees of a cached node. */
    method ChildHeights(id: int, ghost t: Tree<string>) returns (l: int, r: int)
      requires oram.Busy() && Body(oram.Now(), id, t) && Ordered(t)
      modifies oram
      ensures oram.Busy() && l == Height(t.left) && r == Height(t.right)
      ensures Body(oram.Now(), id, t) && oram.live == old(oram.live)
      ensures Steps(old(oram.Now()), oram.Now(), Root(t.left) + Root(t.right))
      ensures oram.modified == old(oram.modified) + (Root(t.left) + Root(t.right))
      ensures RootsIn(t, oram.cache.Keys)
    {
      hide Store.Busy, Holds, Height, Ordered, Keys, Steps;
      ghost var v0 := oram.Now();
      NotBelow(t);
      var n := oram.ReadNodeFromCache(id);
      l := NodeHeight(n.value.leftID, n.value.leftPos, t.left);
      ghost var v1 := oram.Now();
      BodyReadLeft(v0, v1, id, t);
      r := NodeHeight(n.value.rightID, n.value.rightPos, t.right);
      BodyReadRight(v1, oram.Now(), id, t);
      StepsTrans(v0, v1, oram.Now(), Root(t.left), Root(t.right));
    }

    /** node->height = max(height(left), height(right)) + 1. */
    method SetHeight(id: int, ghost t: Tree<string>)
      requires oram.Busy() && Body(oram.Now(), id, t) && Ordered(t)
      modifies oram
      ensures oram.Busy() && Body(oram.Now(), id, t) && RootsIn(t, oram.cache.Keys)
      ensures oram.live[id].value.height == Height(t) && oram.live[id].pos == old(oram.live[id].pos)
      ensures Steps(old(oram.Now()), oram.Now(), Keys(t))
      ensures oram.modified == old(oram.modified) + (Root(t.left) + Root(t.right))
    {
      hide Store.Busy, Holds, Ordered, Keys;
      ghost var v0 := oram.Now();
      NotBelow(t);
      var l, r := ChildHeights(id, t);
      ghost var v1 := oram.Now();
      var n := oram.ReadNodeFromCache(id);
      oram.Assign(id, n.(value := n.value.(height := Max(l, r) + 1)));
      BodyHeight(v1, oram.Now(), id, t, Max(l, r) + 1);
      StepsTrans(v0, v1, oram.Now(), Root(t.left) + Root(t.right), {id});
      StepsMore(v0, oram.Now(), Root(t.left) + Root(t.right) + {id}, Keys(t));
    }

    /** WriteNode of a cached node only marks it. */
    method Mark(id: int, ghost t: Tree<string>)
      requires oram.Busy() && Body(oram.Now(), id, t) && Ordered(t)
      modifies oram
      ensures oram.Busy() && Body(oram.Now(), id, t) && oram.live == old(oram.live)
      ensures Steps(old(oram.Now()), oram.Now(), {id}) && old(oram.cache).Keys <= oram.cache.Keys
      ensures oram.modified == old(oram.modified) + {id}
    {
      hide Store.Busy, Holds, Ordered, Keys;
      ghost var v0 := oram.Now();
      var n := oram.ReadNodeFromCache(id);
      var _ := oram.WriteNode(id, n);
      assert oram.live == v0.live;
      BodyHeight(v0, oram.Now(), id, t, n.value.height);
    }

    /** SetHeight followed by WriteNode: the node is complete. */
    method Complete(id: int, ghost t: Tree<string>)
      requires oram.Busy() && Body(oram.Now(), id, t) && Ordered(t)
      modifies oram
      ensures oram.Busy() && id in oram.live && oram.live[id].pos == old(oram.live[id].pos)
      ensures Holds(oram.Now(), id, oram.live[id].pos, t) && RootsIn(t, oram.cache.Keys)
      ensures Steps(old(oram.Now()), oram.Now(), Keys(t))
      ensures oram.modified == old(oram.modified) + (Root(t.left) + Root(t.right) + {id})
    {
      hide Store.Busy, Holds, Ordered, Keys, Height;
      ghost var v0 := oram.Now();
      SetHeight(id, t);
      ghost var v1 := oram.Now();
      Mark(id, t);
      NotBelow(t);
      BodyHolds(oram.Now(), id, t);
      StepsTrans(v0, v1, oram.Now(), Keys(t), {id});
      StepsMore(v0, oram.Now(), Keys(t) + {id}, Keys(t));
    }

    method RightRotate(y: int, ghost t: Tree<string>) returns (x: int, pos: int)
      requires oram.Busy() && Body(oram.Now(), y, t) && Ordered(t)
      requires t.left.Node? && RootsIn(t.left, oram.cache.Keys)
      modifies oram
      ensures oram.Busy() && x == t.left.key && x in oram.cache && x in oram.live && pos == oram.live[x].pos
      ensures Holds(oram.Now(), x, pos, RotateRight(t))
      ensures RootsIn(RotateRight(t), oram.cache.Keys) && RootsIn(RotateRight(t).right, oram.cache.Keys)
      ensures Steps(old(oram.Now()), oram.Now(), Keys(t))
      ensures oram.modified == old(oram.modified) + RightTouches(t)
    {
      hide Store.Busy, Holds, Ordered, Keys, Height, Rep, Root, RightTouches;
      ghost var v0 := oram.Now();
      RightKeys(t);
      BodyLeftChild(v0, y, t);
      var ny := oram.ReadNodeFromCache(y);
      x := ny.value.leftID;
      var nx := oram.ReadNodeFromCache(x);
      var t2, t2pos := 0, 0;
      if nx.value.rightID == 0 {
        t2pos := RandomPath(oram.depth);
      } else {
        var n2 := oram.ReadNodeFromCache(nx.value.rightID);
        t2, t2pos := n2.value.key, n2.pos;
      }
      oram.Assign(x, nx.(value := nx.value.(rightID := ny.value.key, rightPos := ny.pos)));
      oram.Assign(y, ny.(value := ny.value.(leftID := t2, leftPos := t2pos)));
      ghost var v2 := oram.Now();
      RotateRightLower(v0, v2, y, t2, t2pos, t);
      Complete(y, RotateRight(t).right);
      ghost var v3 := oram.Now();
      RotateRightUpper(v2, v3, y, t);
      Complete(x, RotateRight(t));
      pos := nx.pos;
      RightTouched(v0.modified, t);
      StepsTrans(v0, v2, v3, {x, y}, Keys(RotateRight(t).right));
      StepsTrans(v0, v3, oram.Now(), {x, y} + Keys(RotateRight(t).right), Keys(t));
      StepsMore(v0, oram.Now(), {x, y} + Keys(RotateRight(t).right) + Keys(t), Keys(t));
    }

    method LeftRotate(x: int, ghost t: Tree<string>) returns (y: int, pos: int)
      requires oram.Busy() && Body(oram.Now(), x, t) && Ordered(t)
      requires t.right.Node? && RootsIn(t.right, oram.cache.Keys)
      modifies oram
      ensures oram.Busy() && y == t.right.key && y in oram.cache && y in oram.live && pos == oram.live[y].pos
      ensures Holds(oram.Now(), y, pos, RotateLeft(t))
      ensures RootsIn(RotateLeft(t), oram.cache.Keys) && RootsIn(RotateLeft(t).left, oram.cache.Keys)
      ensures Steps(old(oram.Now()), oram.Now(), Keys(t))
      ensures oram.modified == old(oram.modified) + LeftTouches(t)
    {
      hide Store.Busy, Holds, Ordered, Keys, Height, Rep, Root, LeftTouches;
      ghost var v0 := oram.Now();
      LeftKeys(t);
      BodyRightChild(v0, x, t);
      var nx := oram.ReadNodeFromCache(x);
      y := nx.value.rightID;
      var ny := oram.ReadNodeFromCache(y);
      var t2, t2pos := 0, 0;
      if ny.value.leftID == 0 {
        t2pos := RandomPath(oram.depth);
      } else {
        var n2 := oram.ReadNodeFromCache(ny.value.leftID);
        t2, t2pos := n2.value.key, n2.pos;
      }
      oram.Assign(y, ny.(value := ny.value.(leftID := nx.value.key, leftPos := nx.pos)));
      oram.Assign(x, nx.(value := nx.value.(rightID := t2, rightPos := t2pos)));
      ghost var v2 := oram.Now();
      RotateLeftLower(v0, v2, x, t2, t2pos, t);
      Complete(x, RotateLeft(t).left);
      ghost var v3 := oram.Now();
      RotateLeftUpper(v2, v3, x, t);
      Complete(y, RotateLeft(t));
      pos := ny.pos;
      LeftTouched(v0.modified, t);
      StepsTrans(v0, v2, v3, {x, y}, Keys(RotateLeft(t).left));
      StepsTrans(v0, v3, oram.Now(), {x, y} + Keys(RotateLeft(t).left), Keys(t));
      StepsMore(v0, oram.Now(), {x, y} + Keys(RotateLeft(t).left) + Keys(t), Keys(t));
    }

    /** Left Right case: rotate the left child to the left, then the node to the right. */
    method LeftRight(id: int, key: int, ghost t: Tree<string>) returns (root: int, pos: int)
      requires oram.Busy() && Body(oram.Now(), id, t) && Ordered(t) && RootsIn(t, oram.cache.Keys)
      requires t.left.Node? && t.left.right.Node? && t.left.key < key < t.key
      requires SideCached(t, key, oram.cache.Keys)
      modifies oram
      ensures oram.Busy() && root in oram.cache
      ensures Holds(oram.Now(), root, pos, RotateRight(t.(left := RotateLeft(t.left))))
      ensures PathCached(RotateRight(t.(left := RotateLeft(t.left))), key, oram.cache.Keys)
      ensures Steps(old(oram.Now()), oram.Now(), Keys(t))
      ensures oram.modified ==
              old(oram.modified) + (LeftTouches(t.left) + {t.key} + RightTouches(t.(left := RotateLeft(t.left))))
    {
      hide Store.Busy, Holds, Ordered, Keys, Height, Rep, PathCached, Root, LeftTouches, RightTouches, SideCached;
      ghost var v0, l := oram.Now(), t.left;
      DoubleRightKeys(t);
      LeftBody(v0, id, t, key);
      var above := oram.ReadNodeFromCache(id);
      var lid, lpos := LeftRotate(above.value.leftID, l);
      ghost var v1 := oram.Now();
      var node := oram.ReadNodeFromCache(id);
      oram.Assign(id, node.(value := node.value.(leftID := lid, leftPos := lpos)));
      ghost var v2, t2 := oram.Now(), t.(left := RotateLeft(l));
      BodyLeft(v0, v1, v2, id, t, Keys(l), RotateLeft(l), lid, lpos);
      Mark(id, t2);
      ghost var v3 := oram.Now();
      root, pos := RightRotate(id, t2);
      PathCachedGrows(l, key, v0.cached, oram.cache.Keys);
      PathLeftRight(t, key, oram.cache.Keys);
      StepsChain(v0, v1, v2, v3, oram.Now(), Keys(l), {id}, Keys(t));
    }

    /** Right Left case. */
    method RightLeft(id: int, key: int, ghost t: Tree<string>) returns (root: int, pos: int)
      requires oram.Busy() && Body(oram.Now(), id, t) && Ordered(t) && RootsIn(t, oram.cache.Keys)
      requires t.right.Node? && t.right.left.Node? && t.key < key < t.right.key
      requires SideCached(t, key, oram.cache.Keys)
      modifies oram
      ensures oram.Busy() && root in oram.cache
      ensures Holds(oram.Now(), root, pos, RotateLeft(t.(right := RotateRight(t.right))))
      ensures PathCached(RotateLeft(t.(right := RotateRight(t.right))), key, oram.cache.Keys)
      ensures Steps(old(oram.Now()), oram.Now(), Keys(t))
      ensures oram.modified ==
              old(oram.modified) + (RightTouches(t.right) + {t.key} + LeftTouches(t.(right := RotateRight(t.right))))
    {
      hide Store.Busy, Holds, Ordered, Keys, Height, Rep, PathCached, Root, LeftTouches, RightTouches, SideCached;
      ghost var v0, r := oram.Now(), t.right;
      DoubleLeftKeys(t);
      RightBody(v0, id, t, key);
      var above := oram.ReadNodeFromCache(id);
      var rid, rpos := RightRotate(above.value.rightID, r);
      ghost var v1 := oram.Now();
      var node := oram.ReadNodeFromCache(id);
      oram.Assign(id, node.(value := node.value.(rightID := rid, rightPos := rpos)));
      ghost var v2, t2 := oram.Now(), t.(right := RotateRight(r));
      BodyRight(v0, v1, v2, id, t, Keys(r), RotateRight(r), rid, rpos);
      Mark(id, t2);
      ghost var v3 := oram.Now();
      root, pos := LeftRotate(id, t2);
      PathCachedGrows(r, key, v0.cached, oram.cache.Keys);
      PathRightLeft(t, key, oram.cache.Keys);
      StepsChain(v0, v1, v2, v3, oram.Now(), Keys(r), {id}, Keys(t));
    }

    /** Steps 2 and 3 of insert: the height, then one of the four cases. */
    method Fix(id: int, key: int, ghost t: Tree<string>, ghost deep: bool) returns (root: int, pos: int)
      requires oram.Busy() && Body(oram.Now(), id, t) && Ordered(t) && Fixable(t, key)
      requires deep ==> SideCached(t, key, oram.cache.Keys)
      requires !(-1 <= Balance(t) <= 1) ==> deep
      modifies oram
      ensures oram.Busy() && root in oram.cache
      ensures Holds(oram.Now(), root, pos, Rebalance(t, key))
      ensures deep ==> PathCached(Rebalance(t, key), key, oram.cache.Keys)
      ensures Steps(old(oram.Now()), oram.Now(), Keys(t))
      ensures oram.modified == old(oram.modified) + FixTouches(t, key)
    {
      hide Store.Busy, Holds, Ordered, Keys, Height, Rep, PathCached, RotateLeft, RotateRight, Body;
      ghost var v0 := oram.Now();
      SetHeight(id, t);
      ghost var v1 := oram.Now();
      var l, r := ChildHeights(id, t);
      var balance := l - r;
      ghost var v2 := oram.Now();
      if deep { SideCachedGrows(t, key, v0, v2); }
      NotBelow(t);
      StepsTrans(v0, v1, v2, Keys(t), Root(t.left) + Root(t.right));
      StepsMore(v0, v2, Keys(t) + (Root(t.left) + Root(t.right)), Keys(t));
      root, pos := Rotate(id, balance, key, t, deep);
      StepsTrans(v0, v2, oram.Now(), Keys(t), Keys(t));
      assert Keys(t) + Keys(t) == Keys(t);
    }

    method Rotate(id: int, balance: int, key: int, ghost t: Tree<string>, ghost deep: bool)
      returns (root: int, pos: int)
      requires oram.Busy() && Body(oram.Now(), id, t) && Ordered(t) && Fixable(t, key) && balance == Balance(t)
      requires RootsIn(t, oram.cache.Keys) && oram.live[id].value.height == Height(t)
      requires deep ==> SideCached(t, key, oram.cache.Keys)
      requires !(-1 <= Balance(t) <= 1) ==> deep
      modifies oram
      ensures oram.Busy() && root in oram.cache
      ensures Holds(oram.Now(), root, pos, Rebalance(t, key))
      ensures deep ==> PathCached(Rebalance(t, key), key, oram.cache.Keys)
      ensures Steps(old(oram.Now()), oram.Now(), Keys(t))
      ensures oram.modified == old(oram.modified) + RotateTouches(t, key)
    {
      hide Store.Busy, Holds, Ordered, Keys, Height, Rep, PathCached, RotateLeft, RotateRight, SideCached;
      ghost var v0 := oram.Now();
      NotBelow(t);
      ChildIds(v0, id, t);
      var node := oram.ReadNodeFromCache(id);
      if balance > 1 {
        SideRoots(t, key, v0.cached);
        var left := oram.ReadNodeFromCache(node.value.leftID);
        if key < left.value.key {
          root, pos := RightRotate(id, t);
          SideCachedGrows(t, key, v0, oram.Now());
          PathRightRotated(t, key, oram.cache.Keys);
          return;
        }
        root, pos := LeftRight(id, key, t);
      } else if balance < -1 {
        SideRoots(t, key, v0.cached);
        var right := oram.ReadNodeFromCache(node.value.rightID);
        if key > right.value.key {
          root, pos := LeftRotate(id, t);
          SideCachedGrows(t, key, v0, oram.Now());
          PathLeftRotated(t, key, oram.cache.Keys);
          return;
        }
        root, pos := RightLeft(id, key, t);
      } else {
        Mark(id, t);
        BodyHolds(oram.Now(), id, t);
        root, pos := id, node.pos;
        if deep {
          SideCachedGrows(t, key, v0, oram.Now());
          PathStays(t, key, oram.cache.Keys);
        }
        StepsMore(v0, oram.Now(), {id}, Keys(t));
      }
    }

    /** insert: the subtree now stands for the tree with the key inserted, no
        other node changed, and every node the rotations needed was cached. */
    method Insert(rootKey: int, pos: int, key: int, value: string, ghost t: Tree<string>)
      returns (root: int, newPos: int)
      requires oram.Busy() && Holds(oram.Now(), rootKey, pos, t) && Avl(t)
      requires key != 0 && (key in Keys(t) || key !in oram.live)
      modifies oram
      ensures oram.Busy() && root in oram.cache
      ensures Holds(oram.Now(), root, newPos, AvlTree.Insert(t, key, value))
      ensures key !in Keys(t) ==> PathCached(AvlTree.Insert(t, key, value), key, oram.cache.Keys)
      ensures Steps(old(oram.Now()), oram.Now(), Keys(t) + {key})
      ensures oram.modified == old(oram.modified) + Touched(t, key, value)
      decreases t, 1
    {
      hide Store.Busy, Ordered, Keys, Height, PathCached, Rebalance, Balanced, Steps, Body, Holds;
      ghost var v0 := oram.Now();
      RootOf(v0, rootKey, pos, t);
      if rootKey == 0 {
        var leaf := RandomPath(oram.depth);
        newPos := oram.WriteNode(key, NewNode(key, value, leaf));
        root := key;
        NewHolds(v0, oram.Now(), key, value, leaf);
        return;
      }
      NotBelow(t);
      var node := oram.ReadNode(rootKey, pos);
      ghost var v1 := oram.Now();
      ReadsHolds(v0, v1, rootKey, pos, t);
      if key < node.value.key {
        root, newPos := InsertLeft(rootKey, key, value, t);
      } else if key > node.value.key {
        root, newPos := InsertRight(rootKey, key, value, t);
      } else {
        var n := node.(value := node.value.(value := value));
        oram.Assign(rootKey, n);
        var _ := oram.WriteNode(rootKey, n);
        root, newPos := rootKey, pos;
        ValueHolds(v1, oram.Now(), rootKey, t, value);
        StepsMore(v1, oram.Now(), {rootKey}, Keys(t) + {key});
      }
      StepsTrans(v0, v1, oram.Now(), Root(t), Keys(t) + {key});
      StepsMore(v0, oram.Now(), Root(t) + (Keys(t) + {key}), Keys(t) + {key});
    }

    /** The branch of insert that descends to the left. */
    method InsertLeft(id: int, key: int, value: string, ghost t: Tree<string>) returns (root: int, pos: int)
      requires oram.Busy() && Body(oram.Now(), id, t) && Avl(t) && key < t.key
      requires key != 0 && (key in Keys(t) || key !in oram.live)
      modifies oram
      ensures oram.Busy() && root in oram.cache
      ensures Holds(oram.Now(), root, pos, AvlTree.Insert(t, key, value))
      ensures key !in Keys(t) ==> PathCached(AvlTree.Insert(t, key, value), key, oram.cache.Keys)
      ensures Steps(old(oram.Now()), oram.Now(), Keys(t) + {key})
      ensures oram.modified == old(oram.modified) + Touched(t, key, value)
      decreases t, 0
    {
      hide Store.Busy, Ordered, Keys, Height, PathCached, Rebalance, Balanced, Balance, Holds, Rep, AvlTree.Insert;
      ghost var v0, deep := oram.Now(), key !in Keys(t);
      InsertLeftSpec(t, key, value);
      ghost var keys, sub := Keys(t.left) + {key}, AvlTree.Insert(t.left, key, value);
      var above := oram.ReadNodeFromCache(id);
      var child, childPos := Insert(above.value.leftID, above.value.leftPos, key, value, t.left);
      ghost var v1 := oram.Now();
      var node := oram.ReadNodeFromCache(id);
      oram.Assign(id, node.(value := node.value.(leftID := child, leftPos := childPos)));
      ghost var v2, t1 := oram.Now(), t.(left := sub);
      BodyLeft(v0, v1, v2, id, t, keys, sub, child, childPos);
      if deep { PathCachedGrows(sub, key, v1.cached, v2.cached); }
      root, pos := Fix(id, key, t1, deep);
      StepsChain(v0, v1, v2, v2, oram.Now(), keys, {id}, Keys(t) + {key});
    }

    /** The branch of insert that descends to the right. */
    method InsertRight(id: int, key: int, value: string, ghost t: Tree<string>) returns (root: int, pos: int)
      requires oram.Busy() && Body(oram.Now(), id, t) && Avl(t) && key > t.key
      requires key != 0 && (key in Keys(t) || key !in oram.live)
      modifies oram
      ensures oram.Busy() && root in oram.cache
      ensures Holds(oram.Now(), root, pos, AvlTree.Insert(t, key, value))
      ensures key !in Keys(t) ==> PathCached(AvlTree.Insert(t, key, value), key, oram.cache.Keys)
      ensures Steps(old(oram.Now()), oram.Now(), Keys(t) + {key})
      ensures oram.modified == old(oram.modified) + Touched(t, key, value)
      decreases t, 0
    {
      hide Store.Busy, Ordered, Keys, Height, PathCached, Rebalance, Balanced, Balance, Holds, Rep, AvlTree.Insert;
      ghost var v0, deep := oram.Now(), key !in Keys(t);
      InsertRightSpec(t, key, value);
      ghost var keys, sub := Keys(t.right) + {key}, AvlTree.Insert(t.right, key, value);
      var above := oram.ReadNodeFromCache(id);
      var child, childPos := Insert(above.value.rightID, above.value.rightPos, key, value, t.right);
      ghost var v1 := oram.Now();
      var node := oram.ReadNodeFromCache(id);
      oram.Assign(id, node.(value := node.value.(rightID := child, rightPos := childPos)));
      ghost var v2, t1 := oram.Now(), t.(right := sub);
      BodyRight(v0, v1, v2, id, t, keys, sub, child, childPos);
      if deep { PathCachedGrows(sub, key, v1.cached, v2.cached); }
      root, pos := Fix(id, key, t1, deep);
      StepsChain(v0, v1, v2, v2, oram.Now(), keys, {id}, Keys(t) + {key});
    }

    /** search: the nodes on the way are read, none is changed. */
    method Search(id: int, pos: int, key: int, ghost t: Tree<string>) returns (found: bool, value: string)
      requires oram.Busy() && Holds(oram.Now(), id, pos, t) && Avl(t)
      modifies oram
      ensures oram.Busy() && oram.live == old(oram.live) && Holds(oram.Now(), id, pos, t)
      ensures Steps(old(oram.Now()), oram.Now(), Keys(t))
      ensures oram.modified == old(oram.modified) + Seen(t, key)
      ensures found <==> key in Contents(t)
      ensures found ==> value == Contents(t)[key]
      decreases t
    {
      hide Store.Busy, Ordered, Keys, Height, Balanced, Contents, Holds, Rep, Body;
      ghost var v0 := oram.Now();
      RootOf(v0, id, pos, t);
      if id == 0 {
        NoContents(t);
        return false, "";
      }
      NotBelow(t);
      var node := oram.ReadNode(id, pos);
      ghost var v1 := oram.Now();
      ReadsHolds(v0, v1, id, pos, t);
      BodyParts(v1, id, t);
      LookupSide(t, key);
      if node.value.key > key {
        found, value := Search(node.value.leftID, node.value.leftPos, key, t.left);
        LeftVisited(v1, oram.Now(), id, pos, t);
      } else if node.value.key < key {
        found, value := Search(node.value.rightID, node.value.rightPos, key, t.right);
        RightVisited(v1, oram.Now(), id, pos, t);
      } else {
        found, value := true, node.value.value;
      }
    }

    /** batchSearch: one traversal finds what single searches would. */
    method BatchSearch(id: int, pos: int, keys: seq<int>, ghost t: Tree<string>) returns (results: seq<string>)
      requires oram.Busy() && Holds(oram.Now(), id, pos, t) && Avl(t)
      modifies oram
      ensures oram.Busy() && oram.live == old(oram.live) && Holds(oram.Now(), id, pos, t)
      ensures Steps(old(oram.Now()), oram.Now(), Keys(t))
      ensures oram.modified == old(oram.modified) + SeenAll(t, keys)
      ensures multiset(results) == FoundAll(Contents(t), keys)
      decreases t, 1
    {
      hide Store.Busy, Ordered, Keys, Height, Balanced, Contents, Holds, Rep, Body, FoundAll, Steps, SeenAll,
           Sides, Avl, Closed, Seen;
      ghost var v0 := oram.Now();
      RootOf(v0, id, pos, t);
      if id == 0 {
        FoundNothing(t, keys);
        SeenNothing(t, keys);
        StepsNone(v0, Keys(t));
        return [];
      }
      NotBelow(t);
      var node := oram.ReadNode(id, pos);
      ghost var v1 := oram.Now();
      ReadsHolds(v0, v1, id, pos, t);
      StepsMore(v0, v1, Root(t), Keys(t));
      var leftKeys, rightKeys, here := Partition(node, keys, t);
      SeenSides(t, keys, leftKeys, rightKeys);
      var lower := SearchLeft(node, pos, leftKeys, t);
      ghost var v2 := oram.Now();
      var upper := SearchRight(node, pos, rightKeys, t);
      results := here + lower + upper;
      StepsJoin(v0, v1, v2, Keys(t));
      StepsJoin(v0, v2, oram.Now(), Keys(t));
    }

    /** The left half of batchSearch, entered only for keys on that side. */
    method SearchLeft(node: Node, pos: int, keys: seq<int>, ghost t: Tree<string>) returns (results: seq<string>)
      requires oram.Busy() && t.Node? && Holds(oram.Now(), t.key, pos, t) && Avl(t) && t.key in oram.cache
      requires t.key in oram.live && node == oram.live[t.key]
      modifies oram
      ensures oram.Busy() && oram.live == old(oram.live) && Holds(oram.Now(), t.key, pos, t) && t.key in oram.cache
      ensures Steps(old(oram.Now()), oram.Now(), Keys(t))
      ensures oram.modified == old(oram.modified) + if keys != [] then SeenAll(t.left, keys) else {}
      ensures multiset(results) == FoundAll(Contents(t.left), keys)
      decreases t, 0
    {
      hide Store.Busy, Ordered, Keys, Height, Balanced, Contents, Holds, Rep, Body, FoundAll, Steps, SeenAll, Avl,
           Closed, Seen;
      ghost var v := oram.Now();
      RootOf(v, t.key, pos, t);
      NoKeys(Contents(t.left));
      StepsNone(v, Keys(t));
      if keys == [] { return []; }
      BodyParts(v, t.key, t);
      results := BatchSearch(node.value.leftID, node.value.leftPos, keys, t.left);
      LeftVisited(v, oram.Now(), t.key, pos, t);
    }

    /** The right half of batchSearch, entered only for keys on that side. */
    method SearchRight(node: Node, pos: int, keys: seq<int>, ghost t: Tree<string>) returns (results: seq<string>)
      requires oram.Busy() && t.Node? && Holds(oram.Now(), t.key, pos, t) && Avl(t) && t.key in oram.cache
      requires t.key in oram.live && node == oram.live[t.key]
      modifies oram
      ensures oram.Busy() && oram.live == old(oram.live) && Holds(oram.Now(), t.key, pos, t) && t.key in oram.cache
      ensures Steps(old(oram.Now()), oram.Now(), Keys(t))
      ensures oram.modified == old(oram.modified) + if keys != [] then SeenAll(t.right, keys) else {}
      ensures multiset(results) == FoundAll(Contents(t.right), keys)
      decreases t, 0
    {
      hide Store.Busy, Ordered, Keys, Height, Balanced, Contents, Holds, Rep, Body, FoundAll, Steps, SeenAll, Avl,
           Closed, Seen;
      ghost var v := oram.Now();
      RootOf(v, t.key, pos, t);
      NoKeys(Contents(t.right));
      StepsNone(v, Keys(t));
      if keys == [] { return []; }
      BodyParts(v, t.key, t);
      results := BatchSearch(node.value.rightID, node.value.rightPos, keys, t.right);
      RightVisited(v, oram.Now(), t.key, pos, t);
    }

    /** The loop of batchSearch over the keys. */
    method Partition(node: Node, keys: seq<int>, ghost t: Tree<string>)
      returns (leftKeys: seq<int>, rightKeys: seq<int>, here: seq<string>)
      requires t.Node? && Ordered(t) && node.value.key == t.key && node.value.value == t.value
      ensures FoundAll(Contents(t), keys) ==
              multiset(here) + FoundAll(Contents(t.left), leftKeys) + FoundAll(Contents(t.right), rightKeys)
      ensures Sides(t, keys, leftKeys, rightKeys)
    {
      hide Contents, FoundAll, Ordered;
      leftKeys, rightKeys, here := [], [], [];
      NoKeys(Contents(t));
      NoKeys(Contents(t.left));
      NoKeys(Contents(t.right));
      assert keys[..0] == [];
      for i := 0 to |keys|
        invariant FoundAll(Contents(t), keys[..i]) ==
                  multiset(here) + FoundAll(Contents(t.left), leftKeys) + FoundAll(Contents(t.right), rightKeys)
        invariant Sides(t, keys[..i], leftKeys, rightKeys)
      {
        var k := keys[i];
        LookupSide(t, k);
        assert keys[..i + 1] == keys[..i] + [k];
        FoundAllStep(Contents(t), keys[..i], k);
        if node.value.key > k {
          FoundAllStep(Contents(t.left), leftKeys, k);
          leftKeys := leftKeys + [k];
        }
        if node.value.key < k {
          FoundAllStep(Contents(t.right), rightKeys, k);
          rightKeys := rightKeys + [k];
        }
        if node.value.key == k {
          here := here + [node.value.value];
        }
      }
      assert keys[..|keys|] == keys;
    }
  }

  lemma StepsNone(v: View, keys: set<int>)
    ensures Steps(v, v, keys)
  {
  }

  lemma StepsJoin(a: View, b: View, c: View, keys: set<int>)
    requires Steps(a, b, keys) && Steps(b, c, keys)
    ensures Steps(a, c, keys)
  {
    StepsTrans(a, b, c, keys, keys);
    assert keys + keys == keys;
  }

  lemma NoKeys(m: map<int, string>)
    ensures FoundAll(m, []) == multiset{}
  {
  }

  lemma {:induction false} NoContents(t: Tree<string>)
    requires t.Leaf?
    ensures Contents(t) == map[]
  {
  }

  lemma {:induction false} FoundNothing(t: Tree<string>, keys: seq<int>)
    requires t.Leaf?
    ensures FoundAll(Contents(t), keys) == multiset{}
  {
    if keys != [] { FoundNothing(t, keys[..|keys| - 1]); }
  }

  lemma {:induction false} BodyParts(v: View, id: int, t: Tree<string>)
    requires id in v.live && Holds(v, id, v.live[id].pos, t) && t.Node? && id in v.cached
    ensures Body(v, id, t) && v.live[id].value.height == Height(t)
    ensures Holds(v, v.live[id].value.leftID, v.live[id].value.leftPos, t.left)
    ensures Holds(v, v.live[id].value.rightID, v.live[id].value.rightPos, t.right)
  {
  }

  /** A visit to the left subtree that changed no node. */
  lemma {:induction false} LeftVisited(v: View, v': View, id: int, pos: int, t: Tree<string>)
    requires Body(v, id, t) && Ordered(t) && v.live[id].value.height == Height(t) && v.live[id].pos == pos
    requires v'.live == v.live && Steps(v, v', Keys(t.left))
    requires Holds(v', v.live[id].value.leftID, v.live[id].value.leftPos, t.left)
    ensures Holds(v', id, pos, t) && Steps(v, v', Keys(t)) && id in v'.cached
  {
    hide Holds, Ordered, Keys;
    NotBelow(t);
    var n := v.live[id].value;
    BodyLeft(v, v', v', id, t, Keys(t.left), t.left, n.leftID, n.leftPos);
    assert t.(left := t.left) == t;
    BodyHolds(v', id, t);
  }

  lemma {:induction false} RightVisited(v: View, v': View, id: int, pos: int, t: Tree<string>)
    requires Body(v, id, t) && Ordered(t) && v.live[id].value.height == Height(t) && v.live[id].pos == pos
    requires v'.live == v.live && Steps(v, v', Keys(t.right))
    requires Holds(v', v.live[id].value.rightID, v.live[id].value.rightPos, t.right)
    ensures Holds(v', id, pos, t) && Steps(v, v', Keys(t)) && id in v'.cached
  {
    hide Holds, Ordered, Keys;
    NotBelow(t);
    var n := v.live[id].value;
    BodyRight(v, v', v', id, t, Keys(t.right), t.right, n.rightID, n.rightPos);
    assert t.(right := t.right) == t;
    BodyHolds(v', id, t);
  }

  lemma {:induction false} InsertLeftSpec(t: Tree<string>, key: int, value: string)
    requires t.Node? && Avl(t) && key < t.key
    ensures var sub := AvlTree.Insert(t.left, key, value); var t1 := t.(left := sub);
            && AvlTree.Insert(t, key, value) == Rebalance(t1, key)
            && Ordered(t1) && Keys(t1) == Keys(t) + {key} && Fixable(t1, key)
            && (!(-1 <= Balance(t1) <= 1) ==> key !in Keys(t))
            && t.key !in Keys(sub) && t.key !in Keys(t.left) + {key} && t.key !in Keys(t.right)
            && Keys(t.right) !! Keys(t.left) + {key} && {t.key} <= Keys(t)
            && Keys(t.left) <= Keys(t) && (key in Keys(t) <==> key in Keys(t.left)) && Avl(t.left)
  {
    hide Rebalance;
    NotBelow(t);
    OutOfOrder(t, key);
    InsertMap(t.left, key, value);
    InsertBalanced(t.left, key, value);
    AvlTree.InsertLeft(t, key, value);
    SideLeft(t, key, value);
  }

  lemma {:induction false} SideLeft(t: Tree<string>, key: int, value: string)
    requires t.Node? && Avl(t) && key < t.key
    ensures var t1 := t.(left := AvlTree.Insert(t.left, key, value));
            Fixable(t1, key) && (!(-1 <= Balance(t1) <= 1) ==> key !in Keys(t.left))
  {
    InsertBalanced(t.left, key, value);
    RebalanceLeft(t, AvlTree.Insert(t.left, key, value), key);
  }

  lemma {:induction false} InsertRightSpec(t: Tree<string>, key: int, value: string)
    requires t.Node? && Avl(t) && key > t.key
    ensures var sub := AvlTree.Insert(t.right, key, value); var t1 := t.(right := sub);
            && AvlTree.Insert(t, key, value) == Rebalance(t1, key)
            && Ordered(t1) && Keys(t1) == Keys(t) + {key} && Fixable(t1, key)
            && (!(-1 <= Balance(t1) <= 1) ==> key !in Keys(t))
            && t.key !in Keys(sub) && t.key !in Keys(t.right) + {key} && t.key !in Keys(t.left)
            && Keys(t.left) !! Keys(t.right) + {key} && {t.key} <= Keys(t)
            && Keys(t.right) <= Keys(t) && (key in Keys(t) <==> key in Keys(t.right)) && Avl(t.right)
  {
    hide Rebalance;
    NotBelow(t);
    OutOfOrder(t, key);
    InsertMap(t.right, key, value);
    InsertBalanced(t.right, key, value);
    AvlTree.InsertRight(t, key, value);
    SideRight(t, key, value);
  }

  lemma {:induction false} SideRight(t: Tree<string>, key: int, value: string)
    requires t.Node? && Avl(t) && key > t.key
    ensures var t1 := t.(right := AvlTree.Insert(t.right, key, value));
            Fixable(t1, key) && (!(-1 <= Balance(t1) <= 1) ==> key !in Keys(t.right))
  {
    InsertBalanced(t.right, key, value);
    RebalanceRight(t, AvlTree.Insert(t.right, key, value), key);
  }

  lemma {:induction false} NewHolds(v: View, v': View, key: int, value: string, pos: int)
    requires key != 0 && v'.live == v.live[key := NewNode(key, value, pos)] && v.cached + {key} <= v'.cached
    requires v'.modified == v.modified + {key}
    requires key !in v.live
    ensures var t := AvlTree.Insert(Leaf, key, value);
            Holds(v', key, pos, t) && PathCached(t, key, v'.cached) && Steps(v, v', {key})
            && Keys<string>(Leaf) + {key} == {key}
  {
    assert Rep(v'.live, 0, -1, Leaf);
  }

  /** Overwriting the value of the root. */
  lemma {:induction false} ValueHolds(v: View, v': View, id: int, t: Tree<string>, value: string)
    requires Body(v, id, t) && Ordered(t) && v.live[id].value.height == Height(t)
    requires v'.live == v.live[id := v.live[id].(value := v.live[id].value.(value := value))]
    requires v.cached <= v'.cached && v'.modified == v.modified + {id}
    ensures Holds(v', id, v.live[id].pos, t.(value := value)) && Steps(v, v', {id})
  {
    NotBelow(t);
    var n := v.live[id].value;
    HoldsFrame(v, v', {id}, n.leftID, n.leftPos, t.left);
    HoldsFrame(v, v', {id}, n.rightID, n.rightPos, t.right);
    BodyHolds(v', id, t.(value := value));
  }

  function NewNode(key: int, value: string, pos: int): Node {
    Box(Links(key, value, 0, -1, 0, -1, 1), pos)
  }

  lemma {:induction false} RootOf(v: View, id: int, pos: int, t: Tree<string>)
    requires Holds(v, id, pos, t) && Avl(t)
    ensures t.Leaf? <==> id == 0
    ensures t.Node? ==> id == t.key && id in v.live && v.live[id].pos == pos && v.live[id].value.key == id
    ensures t.Node? ==> v.live[id].value.height == Height(t) && v.live[id].value.value == t.value
    ensures t.Leaf? ==> Keys(t) == {}
    ensures Ordered(t) && Balanced(t)
    ensures t.Node? ==> Avl(t.left) && Avl(t.right)
  {
  }

  lemma {:induction false} SideCachedGrows(t: Tree<string>, key: int, v: View, v': View)
    requires t.Node? && SideCached(t, key, v.cached) && v.cached <= v'.cached
    ensures SideCached(t, key, v'.cached)
  {
    PathCachedGrows(if key < t.key then t.left else t.right, key, v.cached, v'.cached);
  }

  lemma {:induction false} SideRoots(t: Tree<string>, key: int, cached: set<int>)
    requires t.Node? && SideCached(t, key, cached)
    ensures key < t.key && t.left.Node? ==> RootsIn(t.left, cached)
    ensures key > t.key && t.right.Node? ==> RootsIn(t.right, cached)
  {
  }

  lemma {:induction false} ChildIds(v: View, id: int, t: Tree<string>)
    requires Body(v, id, t)
    ensures var n := v.live[id].value;
      && (if t.left.Leaf? then n.leftID == 0
          else n.leftID == t.left.key != 0 && n.leftID in v.live && v.live[n.leftID].value.key == n.leftID)
      && (if t.right.Leaf? then n.rightID == 0
          else n.rightID == t.right.key != 0 && n.rightID in v.live && v.live[n.rightID].value.key == n.rightID)
  {
  }

  lemma StepsChain(a: View, b: View, c: View, d: View, e: View, k1: set<int>, k2: set<int>, k: set<int>)
    requires Steps(a, b, k1) && Steps(b, c, k2) && Steps(c, d, k2) && Steps(d, e, k) && k1 <= k && k2 <= k
    ensures Steps(a, e, k)
  {
    StepsMore(a, b, k1, k);
    StepsMore(b, c, k2, k);
    StepsMore(c, d, k2, k);
    StepsTrans(a, b, c, k, k);
    StepsTrans(a, c, d, k + k, k);
    StepsTrans(a, d, e, k + k + k, k);
    assert k + k + k + k == k;
  }

  lemma {:induction false} DoubleRightKeys(t: Tree<string>)
    requires t.Node? && Ordered(t) && t.left.Node? && t.left.right.Node?
    ensures var l := t.left; var t2 := t.(left := RotateLeft(l));
            && Ordered(l) && Ordered(t2) && Keys(t2) == Keys(t) && Keys(l) <= Keys(t) && {t.key} <= Keys(t)
            && Keys(RotateLeft(l)) == Keys(l)
            && t.key !in Keys(l) && t.key !in Keys(t.right) && Keys(t.right) !! Keys(l)
            && l.key < l.right.key < t.key
  {
    NotBelow(t);
    NotBelow(t.left);
    RotateLeftKeeps(t.left);
    ReplaceLeft(t, RotateLeft(t.left));
    assert t.left.right.key in Keys(t.left.right);
  }

  lemma {:induction false} DoubleLeftKeys(t: Tree<string>)
    requires t.Node? && Ordered(t) && t.right.Node? && t.right.left.Node?
    ensures var r := t.right; var t2 := t.(right := RotateRight(r));
            && Ordered(r) && Ordered(t2) && Keys(t2) == Keys(t) && Keys(r) <= Keys(t) && {t.key} <= Keys(t)
            && Keys(RotateRight(r)) == Keys(r)
            && t.key !in Keys(r) && t.key !in Keys(t.left) && Keys(t.left) !! Keys(r)
            && t.key < r.left.key < r.key
  {
    NotBelow(t);
    NotBelow(t.right);
    RotateRightKeeps(t.right);
    ReplaceRight(t, RotateRight(t.right));
    assert t.right.left.key in Keys(t.right.left);
  }

  lemma {:induction false} LeftBody(v: View, id: int, t: Tree<string>, key: int)
    requires Body(v, id, t) && RootsIn(t, v.cached) && t.left.Node? && t.left.key < key < t.key
    requires SideCached(t, key, v.cached)
    ensures v.live[id].value.leftID == t.left.key && Body(v, t.left.key, t.left)
    ensures t.left.right.Node? ==> RootsIn(t.left.right, v.cached)
    ensures PathCached(t.left, key, v.cached)
  {
    HoldsBody(v, t.left.key, v.live[id].value.leftPos, t.left);
    assert PathCached(t.left.right, key, v.cached);
  }

  lemma {:induction false} RightBody(v: View, id: int, t: Tree<string>, key: int)
    requires Body(v, id, t) && RootsIn(t, v.cached) && t.right.Node? && t.key < key < t.right.key
    requires SideCached(t, key, v.cached)
    ensures v.live[id].value.rightID == t.right.key && Body(v, t.right.key, t.right)
    ensures t.right.left.Node? ==> RootsIn(t.right.left, v.cached)
    ensures PathCached(t.right, key, v.cached)
  {
    HoldsBody(v, t.right.key, v.live[id].value.rightPos, t.right);
    assert PathCached(t.right.left, key, v.cached);
  }

  /** What the links of a cached node say of its left child. */
  lemma {:induction false} BodyLeftChild(v: View, y: int, t: Tree<string>)
    requires Body(v, y, t) && t.left.Node? && RootsIn(t.left, v.cached)
    ensures v.live[y].value.leftID == t.left.key != 0 && t.left.key in v.live
    ensures var n := v.live[t.left.key].value;
            if t.left.right.Leaf? then n.rightID == 0
            else n.rightID == t.left.right.key != 0 && n.rightID in v.cached && n.rightID in v.live
                 && v.live[n.rightID].value.key == n.rightID && v.live[n.rightID].pos == n.rightPos
  {
    HoldsBody(v, t.left.key, v.live[y].value.leftPos, t.left);
    assert Rep(v.live, v.live[t.left.key].value.rightID, v.live[t.left.key].value.rightPos, t.left.right);
  }

  lemma {:induction false} BodyRightChild(v: View, x: int, t: Tree<string>)
    requires Body(v, x, t) && t.right.Node? && RootsIn(t.right, v.cached)
    ensures v.live[x].value.rightID == t.right.key != 0 && t.right.key in v.live
    ensures var n := v.live[t.right.key].value;
            if t.right.left.Leaf? then n.leftID == 0
            else n.leftID == t.right.left.key != 0 && n.leftID in v.cached && n.leftID in v.live
                 && v.live[n.leftID].value.key == n.leftID && v.live[n.leftID].pos == n.leftPos
  {
    HoldsBody(v, t.right.key, v.live[x].value.rightPos, t.right);
    assert Rep(v.live, v.live[t.right.key].value.leftID, v.live[t.right.key].value.leftPos, t.right.left);
  }
}

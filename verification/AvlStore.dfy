/** A search tree laid out as linked nodes: every node is found by the id and
    the position its parent (or the root pointer) holds for it. */
module AvlStore {
  import opened AvlTree
  import opened OramState

  datatype Links = Links(key: int, value: string, leftID: int, leftPos: int, rightID: int, rightPos: int, height: int)

  /** A node: its links, and the leaf whose path it is stored on. */
  type Node = Box<Links>

  /** What matters of the store: the current version of every node, and which
      nodes are cached and which of those are marked modified. */
  datatype View = View(live: map<int, Node>, cached: set<int>, modified: set<int>)

  /** id and pos link to a faithful layout of t: exact heights, and every link
      names its child's id and position. */
  ghost predicate Rep(live: map<int, Node>, id: int, pos: int, t: Tree<string>)
    decreases t
  {
    if t.Leaf? then id == 0
    else
      && id == t.key && id != 0 && id in live && live[id].pos == pos
      && var n := live[id].value;
      && n.key == id && n.value == t.value && n.height == Height(t)
      && Rep(live, n.leftID, n.leftPos, t.left)
      && Rep(live, n.rightID, n.rightPos, t.right)
  }

  /** Below a node that is not cached nothing is modified. */
  ghost predicate Closed(t: Tree<string>, cached: set<int>, modified: set<int>) {
    t.Node? ==>
      && (t.key in cached || Keys(t) !! modified)
      && Closed(t.left, cached, modified) && Closed(t.right, cached, modified)
  }

  ghost predicate Holds(v: View, id: int, pos: int, t: Tree<string>) {
    Rep(v.live, id, pos, t) && Closed(t, v.cached, v.modified)
  }

  /** The root of t is cached as node id, whatever height it records. */
  ghost predicate Body(v: View, id: int, t: Tree<string>) {
    && t.Node? && id == t.key && id != 0 && id in v.live && id in v.cached
    && var n := v.live[id].value;
    && n.key == id && n.value == t.value
    && Holds(v, n.leftID, n.leftPos, t.left)
    && Holds(v, n.rightID, n.rightPos, t.right)
  }

  /** v' follows from v by work on the nodes in keys alone. */
  ghost predicate Steps(v: View, v': View, keys: set<int>) {
    && v.live.Keys <= v'.live.Keys <= v.live.Keys + keys
    && (forall k :: k in v.live && k !in keys ==> v'.live[k] == v.live[k])
    && v.cached <= v'.cached
    && v.modified <= v'.modified <= v.modified + keys
  }

  lemma StepsTrans(a: View, b: View, c: View, k1: set<int>, k2: set<int>)
    requires Steps(a, b, k1) && Steps(b, c, k2)
    ensures Steps(a, c, k1 + k2)
  {
  }

  lemma StepsMore(a: View, b: View, k1: set<int>, k2: set<int>)
    requires Steps(a, b, k1) && k1 <= k2
    ensures Steps(a, b, k2)
  {
  }

  lemma {:induction false} RepFrame(live: map<int, Node>, live': map<int, Node>, id: int, pos: int, t: Tree<string>)
    requires Rep(live, id, pos, t)
    requires forall k :: k in Keys(t) && k in live ==> k in live' && live'[k] == live[k]
    ensures Rep(live', id, pos, t)
    decreases t
  {
    if t.Node? {
      var n := live[id].value;
      assert id in Keys(t);
      RepFrame(live, live', n.leftID, n.leftPos, t.left);
      RepFrame(live, live', n.rightID, n.rightPos, t.right);
    }
  }

  lemma {:induction false} ClosedFrame(t: Tree<string>, c: set<int>, m: set<int>, c': set<int>, m': set<int>)
    requires Closed(t, c, m) && c <= c' && forall k :: k in Keys(t) && k in m' ==> k in m
    ensures Closed(t, c', m')
  {
    if t.Node? {
      ClosedFrame(t.left, c, m, c', m');
      ClosedFrame(t.right, c, m, c', m');
    }
  }

  /** Work elsewhere does not disturb a subtree. */
  lemma HoldsFrame(v: View, v': View, keys: set<int>, id: int, pos: int, t: Tree<string>)
    requires Holds(v, id, pos, t) && Steps(v, v', keys) && Keys(t) !! keys
    ensures Holds(v', id, pos, t)
  {
    RepFrame(v.live, v'.live, id, pos, t);
    ClosedFrame(t, v.cached, v.modified, v'.cached, v'.modified);
  }

  ghost function Root(t: Tree<string>): set<int> {
    if t.Leaf? then {} else {t.key}
  }

  /** Reading the root of a subtree. */
  ghost predicate Reads(v: View, v': View, t: Tree<string>) {
    && v'.live == v.live && v.cached + Root(t) <= v'.cached && v'.modified == v.modified + Root(t)
  }

  lemma ReadsHolds(v: View, v': View, id: int, pos: int, t: Tree<string>)
    requires Holds(v, id, pos, t) && Ordered(t) && Reads(v, v', t)
    ensures Holds(v', id, pos, t) && Steps(v, v', Root(t))
    ensures t.Node? ==> Body(v', id, t)
  {
    if t.Node? {
      ClosedFrame(t.left, v.cached, v.modified, v'.cached, v'.modified);
      ClosedFrame(t.right, v.cached, v.modified, v'.cached, v'.modified);
    }
  }

  lemma BodyHolds(v: View, id: int, t: Tree<string>)
    requires Body(v, id, t) && v.live[id].value.height == Height(t)
    ensures Holds(v, id, v.live[id].pos, t)
  {
  }

  // ----- which nodes an insertion has read -----

  ghost predicate RootIn(t: Tree<string>, cached: set<int>) {
    t.Node? ==> t.key in cached
  }

  ghost predicate RootsIn(t: Tree<string>, cached: set<int>) {
    t.Node? && t.key in cached && RootIn(t.left, cached) && RootIn(t.right, cached)
  }

  /** Every node on the search path of key, and the children of each, are cached. */
  ghost predicate PathCached(t: Tree<string>, key: int, cached: set<int>) {
    t.Node? ==>
      && RootsIn(t, cached)
      && (key < t.key ==> PathCached(t.left, key, cached))
      && (key > t.key ==> PathCached(t.right, key, cached))
  }

  lemma {:induction false} PathCachedGrows(t: Tree<string>, key: int, c: set<int>, c': set<int>)
    requires PathCached(t, key, c) && c <= c'
    ensures PathCached(t, key, c')
  {
    if t.Node? && key < t.key { PathCachedGrows(t.left, key, c, c'); }
    if t.Node? && key > t.key { PathCachedGrows(t.right, key, c, c'); }
  }

  // ----- relinking -----

  /** A cached node after relinking: it may have moved if it was modified, and
      every link to a cached child follows the child. */
  ghost predicate Relinked(v: View, live': map<int, Node>, k: int)
    requires k in v.live && live'.Keys == v.live.Keys
  {
    var n, n' := v.live[k], live'[k];
    && (k !in v.modified ==> n'.pos == n.pos)
    && n'.value == n.value.(leftPos := Link(v, live', n.value.leftID, n.value.leftPos),
                            rightPos := Link(v, live', n.value.rightID, n.value.rightPos))
  }

  ghost function Link(v: View, live': map<int, Node>, id: int, pos: int): int
    requires live'.Keys == v.live.Keys
  {
    if id != 0 && id in v.cached && id in live' then live'[id].pos else pos
  }

  /** A node knows its own key, and along every link the recorded height falls. */
  ghost predicate Descends(live: map<int, Node>, k: int)
    requires k in live
  {
    var n := live[k].value;
    && n.key == k
    && (n.leftID != 0 ==> n.leftID in live && live[n.leftID].value.height < n.height)
    && (n.rightID != 0 ==> n.rightID in live && live[n.rightID].value.height < n.height)
  }

  lemma {:induction false} RepDescends(live: map<int, Node>, id: int, pos: int, t: Tree<string>, k: int)
    requires Rep(live, id, pos, t) && k in Keys(t)
    ensures k in live && Descends(live, k) && 1 <= live[k].value.height <= Height(t)
    decreases t
  {
    var n := live[id].value;
    if k in Keys(t.left) {
      RepDescends(live, n.leftID, n.leftPos, t.left, k);
    } else if k in Keys(t.right) {
      RepDescends(live, n.rightID, n.rightPos, t.right, k);
    }
  }

  ghost predicate Passed(v: View, i: int, done: set<int>, k: int)
    requires k in v.live
  {
    v.live[k].value.height < i || (v.live[k].value.height == i && k in done)
  }

  /** Relinking from the leaves up has finished the heights below i and, of
      height i, the nodes in done. */
  ghost predicate Relinking(v: View, live': map<int, Node>, i: int, done: set<int>) {
    && live'.Keys == v.live.Keys
    && (forall k :: k in v.live && k !in v.cached ==> live'[k] == v.live[k])
    && (forall k :: k in v.live && k in v.cached && Passed(v, i, done, k) ==> Relinked(v, live', k))
    && (forall k :: k in v.live && k in v.cached && !Passed(v, i, done, k) ==> live'[k] == v.live[k])
  }

  lemma RelinkOther(v: View, live': map<int, Node>, k: int, n: Node, j: int)
    requires live'.Keys == v.live.Keys && j in v.live && k in v.live && j != k && Relinked(v, live', j)
    requires Descends(v.live, j) && v.live[j].value.height <= v.live[k].value.height
    ensures Relinked(v, live'[k := n], j)
  {
  }

  lemma RelinkStep(v: View, live': map<int, Node>, i: int, done: set<int>, k: int, n: Node)
    requires Relinking(v, live', i, done) && k in v.live && k in v.cached && k !in done
    requires v.live[k].value.height == i
    requires forall j :: j in v.live ==> Descends(v.live, j)
    requires k !in v.modified ==> n.pos == v.live[k].pos
    requires n.value == v.live[k].value.(leftPos := Link(v, live', v.live[k].value.leftID, v.live[k].value.leftPos),
                                         rightPos := Link(v, live', v.live[k].value.rightID, v.live[k].value.rightPos))
    ensures Relinking(v, live'[k := n], i, done + {k})
  {
    hide Link;
    var live2, done2 := live'[k := n], done + {k};
    forall j | j in v.live && j in v.cached && Passed(v, i, done2, j) ensures Relinked(v, live2, j) {
      if j == k {
        LinkElsewhere(v, live', k, n);
      } else {
        RelinkOther(v, live', k, n, j);
      }
    }
  }

  lemma LinkElsewhere(v: View, live': map<int, Node>, k: int, n: Node)
    requires live'.Keys == v.live.Keys && k in v.live && Descends(v.live, k)
    ensures var x := v.live[k].value;
            && Link(v, live'[k := n], x.leftID, x.leftPos) == Link(v, live', x.leftID, x.leftPos)
            && Link(v, live'[k := n], x.rightID, x.rightPos) == Link(v, live', x.rightID, x.rightPos)
  {
  }

  lemma RelinkSkip(v: View, live': map<int, Node>, i: int, done: set<int>, k: int)
    requires Relinking(v, live', i, done) && k in v.live && v.live[k].value.height != i
    ensures Relinking(v, live', i, done + {k})
  {
    forall j | j in v.live ensures Passed(v, i, done + {k}, j) == Passed(v, i, done, j) {
    }
  }

  /** All cached nodes of height i are done: on to the next height. */
  lemma RelinkNext(v: View, live': map<int, Node>, i: int)
    requires Relinking(v, live', i, v.cached)
    ensures Relinking(v, live', i + 1, {})
  {
    forall j | j in v.live && j in v.cached ensures Passed(v, i + 1, {}, j) == Passed(v, i, v.cached, j) {
    }
  }

  lemma RelinkStart(v: View)
    requires forall k :: k in v.live ==> v.live[k].value.height >= 1
    ensures Relinking(v, v.live, 1, {})
  {
  }

  // ----- what relinking up to a height achieves -----

  ghost function Current(live': map<int, Node>, t: Tree<string>, pos: int): int {
    if t.Node? && t.key in live' then live'[t.key].pos else pos
  }

  ghost predicate Stays(v: View, live': map<int, Node>, t: Tree<string>) {
    t.Node? ==> t.key in v.live && t.key in live' && live'[t.key].pos == v.live[t.key].pos
  }

  /** No child of a node above the bound has moved. */
  ghost predicate Unmoved(v: View, live': map<int, Node>, bound: int, t: Tree<string>) {
    t.Node? ==>
      && (Height(t) > bound ==> Stays(v, live', t.left) && Stays(v, live', t.right))
      && Unmoved(v, live', bound, t.left) && Unmoved(v, live', bound, t.right)
  }

  /** Where nothing is modified nothing moves. */
  lemma {:induction false} NotModifiedStays(v: View, live': map<int, Node>, i: int, id: int, pos: int, t: Tree<string>)
    requires Rep(v.live, id, pos, t) && Relinking(v, live', i, {})
    requires (t.Node? ==> t.key !in v.modified || t.key !in v.cached)
    ensures Stays(v, live', t)
  {
    if t.Node? && id in v.cached && Passed(v, i, {}, id) { assert Relinked(v, live', id); }
  }

  /** A link names its child's position after relinking, unless the node is above
      the bound and the child has moved. */
  lemma {:induction false} LinkFollows(v: View, live': map<int, Node>, bound: int, id: int, t: Tree<string>, left: bool)
    requires t.Node? && id == t.key && id in v.live && Relinking(v, live', bound + 1, {})
    requires v.live[id].value.height == Height(t) && Closed(t, v.cached, v.modified)
    requires var n := v.live[id].value; var c := if left then t.left else t.right;
      Rep(v.live, if left then n.leftID else n.rightID, if left then n.leftPos else n.rightPos, c)
    ensures var n, n', c := v.live[id].value, live'[id].value, if left then t.left else t.right;
      var pos, pos' := if left then n.leftPos else n.rightPos, if left then n'.leftPos else n'.rightPos;
      c.Node? ==> c.key in live' && (pos' == live'[c.key].pos <==> Height(t) <= bound || Stays(v, live', c))
  {
    var n, c := v.live[id].value, if left then t.left else t.right;
    if c.Node? {
      assert c.key in Keys(t) && c.key in v.live;
      if id !in v.cached || c.key !in v.cached {
        NotModifiedStays(v, live', bound + 1, c.key, if left then n.leftPos else n.rightPos, c);
      }
      if id in v.cached && Height(t) <= bound { assert Relinked(v, live', id); }
    }
  }

  /** Relinking changes positions only. */
  lemma SameBody(v: View, live': map<int, Node>, i: int, id: int)
    requires Relinking(v, live', i, {}) && id in v.live
    ensures var n, n' := v.live[id].value, live'[id].value;
            n' == n.(leftPos := n'.leftPos, rightPos := n'.rightPos)
  {
    if id in v.cached && Passed(v, i, {}, id) { assert Relinked(v, live', id); }
  }

  /** Relinking up to a bound leads to the same tree if and only if no child of a
      node above the bound has moved: always, when the tree is not higher. */
  lemma {:induction false} RelinkExactly(v: View, live': map<int, Node>, bound: int, id: int, pos: int, t: Tree<string>)
    requires Holds(v, id, pos, t) && Relinking(v, live', bound + 1, {})
    ensures Unmoved(v, live', bound, t) ==> Rep(live', id, Current(live', t, pos), t)
    ensures forall p :: Rep(live', id, p, t) ==> Unmoved(v, live', bound, t)
    decreases t
  {
    if t.Node? {
      var n := v.live[id].value;
      RelinkExactly(v, live', bound, n.leftID, n.leftPos, t.left);
      RelinkExactly(v, live', bound, n.rightID, n.rightPos, t.right);
      LinkFollows(v, live', bound, id, t, true);
      LinkFollows(v, live', bound, id, t, false);
      SameBody(v, live', bound + 1, id);
    }
  }

  // ----- which relinkings can lose the tree -----

  ghost predicate Loose(touched: set<int>, bound: int, c: Tree<string>) {
    c.Node? && Height(c) <= bound && c.key in touched
  }

  /** Some node above the bound has a touched child that is not above it: the child
      will be moved and the link to it will not follow. */
  ghost predicate Exposed(touched: set<int>, bound: int, t: Tree<string>) {
    t.Node? &&
    (|| (Height(t) > bound && (Loose(touched, bound, t.left) || Loose(touched, bound, t.right)))
     || Exposed(touched, bound, t.left) || Exposed(touched, bound, t.right))
  }

  lemma {:induction false} LowIsSafe(touched: set<int>, bound: int, t: Tree<string>)
    requires Height(t) <= bound
    ensures !Exposed(touched, bound, t)
  {
    if t.Node? {
      LowIsSafe(touched, bound, t.left);
      LowIsSafe(touched, bound, t.right);
    }
  }

  /** What relinking up to the bound may leave: every moved node on any leaf. */
  ghost predicate Outcome(v: View, live': map<int, Node>, bound: int, leaves: nat) {
    Relinking(v, live', bound + 1, {}) && forall k :: k in live' ==> 0 <= live'[k].pos < leaves
  }

  ghost predicate Reached(live': map<int, Node>, id: int, t: Tree<string>) {
    exists p :: Rep(live', id, p, t)
  }

  /** The tree is reached whatever leaves are drawn. */
  ghost predicate Surely(v: View, bound: int, leaves: nat, id: int, t: Tree<string>) {
    forall live' :: Outcome(v, live', bound, leaves) ==> Reached(live', id, t)
  }

  /** A child of a node above the bound keeps its position unless it is loose. */
  lemma {:induction false} TightStays(v: View, live': map<int, Node>, bound: int, id: int, pos: int, c: Tree<string>)
    requires Rep(v.live, id, pos, c) && Relinking(v, live', bound + 1, {}) && !Loose(v.modified, bound, c)
    ensures Stays(v, live', c)
  {
    if c.Node? && Height(c) <= bound { NotModifiedStays(v, live', bound + 1, id, pos, c); }
  }

  lemma {:induction false} SafeIsUnmoved(v: View, live': map<int, Node>, bound: int, id: int, pos: int, t: Tree<string>)
    requires Rep(v.live, id, pos, t) && Relinking(v, live', bound + 1, {}) && !Exposed(v.modified, bound, t)
    ensures Unmoved(v, live', bound, t)
    decreases t
  {
    if t.Node? {
      var n := v.live[id].value;
      SafeIsUnmoved(v, live', bound, n.leftID, n.leftPos, t.left);
      SafeIsUnmoved(v, live', bound, n.rightID, n.rightPos, t.right);
      if Height(t) > bound {
        TightStays(v, live', bound, n.leftID, n.leftPos, t.left);
        TightStays(v, live', bound, n.rightID, n.rightPos, t.right);
      }
    }
  }

  /** With one leaf there is nowhere to move to. */
  lemma {:induction false} OneLeafIsUnmoved(v: View, live': map<int, Node>, bound: int, id: int, pos: int,
                                            t: Tree<string>)
    requires Rep(v.live, id, pos, t) && Outcome(v, live', bound, 1)
    requires forall k :: k in v.live ==> 0 <= v.live[k].pos < 1
    ensures Unmoved(v, live', bound, t) && Stays(v, live', t)
    decreases t
  {
    if t.Node? {
      var n := v.live[id].value;
      OneLeafIsUnmoved(v, live', bound, n.leftID, n.leftPos, t.left);
      OneLeafIsUnmoved(v, live', bound, n.rightID, n.rightPos, t.right);
    }
  }

  // ----- the outcome in which everything that can move moves -----

  function NextLeaf(pos: int, leaves: nat): int {
    if pos + 1 < leaves then pos + 1 else 0
  }

  ghost function Drawn(v: View, bound: int, leaves: nat, k: int): int
    requires k in v.live
  {
    if k in v.modified && k in v.cached && v.live[k].value.height <= bound then NextLeaf(v.live[k].pos, leaves)
    else v.live[k].pos
  }

  ghost function Followed(v: View, bound: int, leaves: nat, id: int, pos: int): int {
    if id != 0 && id in v.cached && id in v.live then Drawn(v, bound, leaves, id) else pos
  }

  ghost function Shaken(v: View, bound: int, leaves: nat): map<int, Node> {
    map k | k in v.live ::
      if k in v.cached && v.live[k].value.height <= bound then
        Box(v.live[k].value.(leftPos := Followed(v, bound, leaves, v.live[k].value.leftID, v.live[k].value.leftPos),
                             rightPos := Followed(v, bound, leaves, v.live[k].value.rightID, v.live[k].value.rightPos)),
            Drawn(v, bound, leaves, k))
      else v.live[k]
  }

  lemma ShakenIsOutcome(v: View, bound: int, leaves: nat)
    requires forall k :: k in v.live ==> 0 <= v.live[k].pos < leaves
    ensures Outcome(v, Shaken(v, bound, leaves), bound, leaves)
  {
    var live' := Shaken(v, bound, leaves);
    forall k | k in v.live ensures live'[k].pos == Drawn(v, bound, leaves, k) {
    }
    forall k | k in v.live && k in v.cached && Passed(v, bound + 1, {}, k) ensures Relinked(v, live', k) {
    }
  }

  lemma {:induction false} ExposedMoves(v: View, bound: int, leaves: nat, id: int, pos: int, t: Tree<string>)
    requires Rep(v.live, id, pos, t) && Exposed(v.modified, bound, t) && v.modified <= v.cached && leaves >= 2
    requires forall k :: k in v.live ==> 0 <= v.live[k].pos < leaves
    ensures !Unmoved(v, Shaken(v, bound, leaves), bound, t)
    decreases t
  {
    var n := v.live[id].value;
    if Exposed(v.modified, bound, t.left) {
      ExposedMoves(v, bound, leaves, n.leftID, n.leftPos, t.left);
    } else if Exposed(v.modified, bound, t.right) {
      ExposedMoves(v, bound, leaves, n.rightID, n.rightPos, t.right);
    } else if Loose(v.modified, bound, t.left) {
      LooseMoves(v, bound, leaves, n.leftID, n.leftPos, t.left);
    } else {
      LooseMoves(v, bound, leaves, n.rightID, n.rightPos, t.right);
    }
  }

  lemma {:induction false} LooseMoves(v: View, bound: int, leaves: nat, id: int, pos: int, c: Tree<string>)
    requires Rep(v.live, id, pos, c) && Loose(v.modified, bound, c) && v.modified <= v.cached && leaves >= 2
    requires 0 <= pos < leaves
    ensures !Stays(v, Shaken(v, bound, leaves), c)
  {
    assert id in v.modified && id in v.cached;
  }

  /** Before any leaf is drawn: the tree is reached in every case if and only if no
      node above the bound has a touched child that is not, or there is one leaf. */
  lemma {:induction false} RelinkSurely(v: View, bound: int, leaves: nat, id: int, pos: int, t: Tree<string>)
    requires Holds(v, id, pos, t) && v.modified <= v.cached
    requires leaves >= 1 && forall k :: k in v.live ==> 0 <= v.live[k].pos < leaves
    ensures Surely(v, bound, leaves, id, t) <==> leaves == 1 || !Exposed(v.modified, bound, t)
  {
    hide Outcome, Rep, Exposed, Unmoved, Shaken, Closed;
    if leaves == 1 || !Exposed(v.modified, bound, t) {
      forall live' | Outcome(v, live', bound, leaves) ensures Reached(live', id, t) {
        OutcomeParts(v, live', bound, leaves);
        if leaves == 1 {
          OneLeafIsUnmoved(v, live', bound, id, pos, t);
        } else {
          SafeIsUnmoved(v, live', bound, id, pos, t);
        }
        RelinkExactly(v, live', bound, id, pos, t);
      }
    } else {
      var live' := Shaken(v, bound, leaves);
      ShakenIsOutcome(v, bound, leaves);
      OutcomeParts(v, live', bound, leaves);
      ExposedMoves(v, bound, leaves, id, pos, t);
      RelinkExactly(v, live', bound, id, pos, t);
      assert !Reached(live', id, t);
    }
  }

  lemma SurelyIs(v: View, live': map<int, Node>, bound: int, leaves: nat, id: int, t: Tree<string>)
    ensures Surely(v, bound, leaves, id, t) && Outcome(v, live', bound, leaves) ==> Reached(live', id, t)
  {
    hide Outcome, Reached;
  }

  lemma OutcomeParts(v: View, live': map<int, Node>, bound: int, leaves: nat)
    requires Outcome(v, live', bound, leaves)
    ensures Relinking(v, live', bound + 1, {}) && forall k :: k in live' ==> 0 <= live'[k].pos < leaves
  {
  }
}

/** Which heights insertions can reach: every balanced tree grows from nothing
    by inserting its nodes level by level, without a single rotation. */
module AvlReach {
  import opened AvlTree

  type Pair = (int, string)

  ghost function InsertAll(t: Tree<string>, pairs: seq<Pair>): Tree<string> {
    if pairs == [] then t
    else
      var (k, v) := pairs[|pairs| - 1];
      Insert(InsertAll(t, pairs[..|pairs| - 1]), k, v)
  }

  lemma {:induction false} InsertAllJoin(t: Tree<string>, a: seq<Pair>, b: seq<Pair>)
    ensures InsertAll(t, a + b) == InsertAll(InsertAll(t, a), b)
  {
    if b == [] {
      assert a + b == a;
    } else {
      InsertAllJoin(t, a, b[..|b| - 1]);
      assert (a + b)[..|a + b| - 1] == a + b[..|b| - 1];
    }
  }

  /** Any run of insertions keeps a balanced search tree. */
  lemma {:induction false} InsertAllAvl(t: Tree<string>, pairs: seq<Pair>)
    requires Avl(t)
    ensures Avl(InsertAll(t, pairs)) && Height(t) <= Height(InsertAll(t, pairs))
    ensures Size(InsertAll(t, pairs)) <= Size(t) + |pairs|
  {
    if pairs != [] {
      var init := pairs[..|pairs| - 1];
      var (k, v) := pairs[|pairs| - 1];
      InsertAllAvl(t, init);
      var s := InsertAll(t, init);
      InsertMap(s, k, v);
      InsertBalanced(s, k, v);
      SizeIsCount(s);
      SizeIsCount(Insert(s, k, v));
    }
  }

  /** The top d levels of a tree. */
  function Top(t: Tree<string>, d: nat): Tree<string> {
    if t.Leaf? || d == 0 then Leaf
    else Node(Top(t.left, d - 1), t.key, t.value, Top(t.right, d - 1))
  }

  /** The nodes that have d ancestors, from left to right. */
  function Level(t: Tree<string>, d: nat): seq<Pair> {
    if t.Leaf? then []
    else if d == 0 then [(t.key, t.value)]
    else Level(t.left, d - 1) + Level(t.right, d - 1)
  }

  function Levels(t: Tree<string>, d: nat): seq<Pair> {
    if d == 0 then [] else Levels(t, d - 1) + Level(t, d - 1)
  }

  lemma {:induction false} AvlParts(t: Tree<string>)
    requires t.Node? && Avl(t)
    ensures Avl(t.left) && Avl(t.right) && -1 <= Height(t.left) - Height(t.right) <= 1
    ensures Height(t) == Max(Height(t.left), Height(t.right)) + 1
    ensures forall k :: k in Keys(t.left) ==> k < t.key
    ensures forall k :: k in Keys(t.right) ==> t.key < k
  {
  }

  lemma {:induction false} TopHeight(t: Tree<string>, d: nat)
    ensures Height(Top(t, d)) == if Height(t) < d then Height(t) else d
    ensures Height(t) <= d ==> Top(t, d) == t
  {
    if t.Node? && d > 0 {
      TopHeight(t.left, d - 1);
      TopHeight(t.right, d - 1);
    }
  }

  lemma {:induction false} TopsEven(t: Tree<string>, d: nat)
    requires t.Node? && Avl(t)
    ensures -1 <= Height(Top(t.left, d)) - Height(Top(t.right, d)) <= 1
  {
    hide *;
    AvlParts(t);
    TopHeight(t.left, d);
    TopHeight(t.right, d);
  }

  lemma {:induction false} TopUnfold(t: Tree<string>, d: nat)
    ensures t.Leaf? || d == 0 ==> Avl(Top(t, d)) && Keys(Top(t, d)) == {}
    ensures t.Node? && d > 0 ==> Top(t, d) == Node(Top(t.left, d - 1), t.key, t.value, Top(t.right, d - 1))
    ensures t.Node? ==> Keys(t) == Keys(t.left) + {t.key} + Keys(t.right)
  {
  }

  lemma {:induction false} TopAvl(t: Tree<string>, d: nat)
    requires Avl(t)
    ensures Avl(Top(t, d)) && Keys(Top(t, d)) <= Keys(t)
  {
    hide *;
    TopUnfold(t, d);
    if t.Node? && d > 0 {
      AvlParts(t);
      TopAvl(t.left, d - 1);
      TopAvl(t.right, d - 1);
      TopsEven(t, d - 1);
      JoinAvl(Top(t.left, d - 1), t.key, t.value, Top(t.right, d - 1));
    }
  }

  lemma {:induction false} LevelKeys(t: Tree<string>, d: nat)
    ensures forall i :: 0 <= i < |Level(t, d)| ==> Level(t, d)[i].0 in Keys(t)
  {
    if t.Node? && d > 0 {
      LevelKeys(t.left, d - 1);
      LevelKeys(t.right, d - 1);
    }
  }

  ghost predicate Below(pairs: seq<Pair>, key: int) {
    forall i :: 0 <= i < |pairs| ==> pairs[i].0 < key
  }

  ghost predicate Above(pairs: seq<Pair>, key: int) {
    forall i :: 0 <= i < |pairs| ==> pairs[i].0 > key
  }

  /** Insertions that stay to the left of the root and never make it lopsided
      happen within the left subtree. */
  lemma {:induction false} InsertAllLeft(t: Tree<string>, pairs: seq<Pair>)
    requires t.Node? && Avl(t.left) && Below(pairs, t.key)
    requires Height(t.left) - Height(t.right) >= -1
    requires Height(InsertAll(t.left, pairs)) - Height(t.right) <= 1
    ensures InsertAll(t, pairs) == t.(left := InsertAll(t.left, pairs))
  {
    if pairs == [] {
      InsertAllNone(t);
      InsertAllNone(t.left);
    } else {
      hide *;
      var init, k, v := pairs[..|pairs| - 1], pairs[|pairs| - 1].0, pairs[|pairs| - 1].1;
      InsertAllAvl(t.left, init);
      var l := InsertAll(t.left, init);
      SidesLast(pairs, t.key);
      GrowsTo(l, k, v);
      InsertAllLast(t, pairs);
      InsertAllLast(t.left, pairs);
      InsertAllLeft(t, init);
      EvenInsertLeft(t.(left := l), k, v);
    }
  }

  lemma InsertAllNone(t: Tree<string>)
    ensures InsertAll(t, []) == t
  {
  }

  lemma InsertAllLast(t: Tree<string>, pairs: seq<Pair>)
    requires pairs != []
    ensures var n := |pairs| - 1; InsertAll(t, pairs) == Insert(InsertAll(t, pairs[..n]), pairs[n].0, pairs[n].1)
  {
  }

  lemma SidesLast(pairs: seq<Pair>, key: int)
    requires pairs != []
    ensures Below(pairs, key) ==> Below(pairs[..|pairs| - 1], key) && pairs[|pairs| - 1].0 < key
    ensures Above(pairs, key) ==> Above(pairs[..|pairs| - 1], key) && pairs[|pairs| - 1].0 > key
  {
  }

  lemma GrowsTo(t: Tree<string>, k: int, v: string)
    requires Avl(t)
    ensures Height(t) <= Height(Insert(t, k, v))
  {
    InsertBalanced(t, k, v);
  }

  /** An insertion on one side that leaves the node even makes no rotation. */
  lemma {:induction false} EvenInsertLeft(t: Tree<string>, k: int, v: string)
    requires t.Node? && k < t.key && -1 <= Height(Insert(t.left, k, v)) - Height(t.right) <= 1
    ensures Insert(t, k, v) == t.(left := Insert(t.left, k, v))
  {
  }

  lemma {:induction false} EvenInsertRight(t: Tree<string>, k: int, v: string)
    requires t.Node? && k > t.key && -1 <= Height(t.left) - Height(Insert(t.right, k, v)) <= 1
    ensures Insert(t, k, v) == t.(right := Insert(t.right, k, v))
  {
  }

  lemma {:induction false} InsertAllRight(t: Tree<string>, pairs: seq<Pair>)
    requires t.Node? && Avl(t.right) && Above(pairs, t.key)
    requires Height(t.left) - Height(t.right) <= 1
    requires Height(t.left) - Height(InsertAll(t.right, pairs)) >= -1
    ensures InsertAll(t, pairs) == t.(right := InsertAll(t.right, pairs))
  {
    if pairs == [] {
      InsertAllNone(t);
      InsertAllNone(t.right);
    } else {
      hide *;
      var init, k, v := pairs[..|pairs| - 1], pairs[|pairs| - 1].0, pairs[|pairs| - 1].1;
      InsertAllAvl(t.right, init);
      var r := InsertAll(t.right, init);
      SidesLast(pairs, t.key);
      GrowsTo(r, k, v);
      InsertAllLast(t, pairs);
      InsertAllLast(t.right, pairs);
      InsertAllRight(t, init);
      EvenInsertRight(t.(right := r), k, v);
    }
  }

  lemma {:induction false} LevelLeft(t: Tree<string>, d: nat)
    requires t.Node? && Avl(t) && d >= 1 && InsertAll(Top(t.left, d - 1), Level(t.left, d - 1)) == Top(t.left, d)
    ensures InsertAll(Top(t, d), Level(t.left, d - 1)) == Node(Top(t.left, d), t.key, t.value, Top(t.right, d - 1))
  {
    assert Top(t, d) == Node(Top(t.left, d - 1), t.key, t.value, Top(t.right, d - 1));
    hide *;
    LevelBounds(t, d);
    InsertAllLeft(Top(t, d), Level(t.left, d - 1));
  }

  lemma {:induction false} LevelRight(t: Tree<string>, d: nat)
    requires t.Node? && Avl(t) && d >= 1 && InsertAll(Top(t.right, d - 1), Level(t.right, d - 1)) == Top(t.right, d)
    ensures InsertAll(Node(Top(t.left, d), t.key, t.value, Top(t.right, d - 1)), Level(t.right, d - 1)) == Top(t, d + 1)
  {
    assert Top(t, d + 1) == Node(Top(t.left, d), t.key, t.value, Top(t.right, d));
    hide *;
    LevelBounds(t, d);
    InsertAllRight(Node(Top(t.left, d), t.key, t.value, Top(t.right, d - 1)), Level(t.right, d - 1));
  }

  lemma {:induction false} LevelSides(t: Tree<string>, d: nat)
    requires t.Node? && Avl(t) && d >= 1
    ensures Below(Level(t.left, d - 1), t.key) && Above(Level(t.right, d - 1), t.key)
  {
    hide Level, Keys, Height, Avl;
    AvlParts(t);
    LevelKeys(t.left, d - 1);
    LevelKeys(t.right, d - 1);
  }

  /** Filling a level from left to right never makes a node lopsided. */
  lemma {:induction false} LevelBounds(t: Tree<string>, d: nat)
    requires t.Node? && Avl(t) && d >= 1
    ensures Avl(Top(t.left, d - 1)) && Avl(Top(t.right, d - 1))
    ensures Below(Level(t.left, d - 1), t.key) && Above(Level(t.right, d - 1), t.key)
    ensures -1 <= Height(Top(t.left, d - 1)) - Height(Top(t.right, d - 1))
    ensures Height(Top(t.left, d)) - Height(Top(t.right, d - 1)) <= 1
    ensures -1 <= Height(Top(t.left, d)) - Height(Top(t.right, d))
  {
    hide *;
    LevelSides(t, d);
    AvlParts(t);
    TopAvl(t.left, d - 1);
    TopAvl(t.right, d - 1);
    TopsEven(t, d - 1);
    TopsEven(t, d);
    TopsAhead(t, d);
  }

  /** The left subtree one level ahead of the right. */
  lemma {:induction false} TopsAhead(t: Tree<string>, d: nat)
    requires t.Node? && Avl(t) && d >= 1
    ensures Height(Top(t.left, d)) - Height(Top(t.right, d - 1)) <= 1
  {
    hide *;
    AvlParts(t);
    TopHeight(t.left, d);
    TopHeight(t.right, d - 1);
  }

  /** Inserting one level below the top d levels completes d + 1 levels. */
  lemma {:induction false} InsertLevel(t: Tree<string>, d: nat)
    requires Avl(t)
    ensures InsertAll(Top(t, d), Level(t, d)) == Top(t, d + 1)
  {
    if t.Node? {
      if d == 0 {
        FirstLevel(t);
      } else {
        hide InsertAll, Insert;
        InsertLevel(t.left, d - 1);
        InsertLevel(t.right, d - 1);
        LevelLeft(t, d);
        LevelRight(t, d);
        InsertAllJoin(Top(t, d), Level(t.left, d - 1), Level(t.right, d - 1));
      }
    }
  }

  lemma {:induction false} FirstLevel(t: Tree<string>)
    requires t.Node?
    ensures InsertAll(Top(t, 0), Level(t, 0)) == Top(t, 1)
  {
    assert InsertAll(Leaf, []) == Leaf;
    assert Level(t, 0)[..0] == [];
  }

  lemma {:induction false} LevelsLast(t: Tree<string>, d: nat)
    ensures Levels(t, d + 1) == Levels(t, d) + Level(t, d)
    ensures InsertAll(Leaf, Levels(t, 0)) == Top(t, 0)
  {
  }

  lemma {:induction false} InsertLevels(t: Tree<string>, d: nat)
    requires Avl(t)
    ensures InsertAll(Leaf, Levels(t, d)) == Top(t, d)
  {
    hide *;
    if d == 0 {
      LevelsLast(t, 0);
    } else {
      InsertLevels(t, d - 1);
      InsertLevel(t, d - 1);
      LevelsLast(t, d - 1);
      InsertAllJoin(Leaf, Levels(t, d - 1), Level(t, d - 1));
    }
  }

  lemma {:induction false} LevelSize(t: Tree<string>, d: nat)
    ensures Size(Top(t, d)) + |Level(t, d)| == Size(Top(t, d + 1))
  {
    if t.Node? && d > 0 {
      LevelSize(t.left, d - 1);
      LevelSize(t.right, d - 1);
    }
  }

  lemma {:induction false} LevelsSize(t: Tree<string>, d: nat)
    ensures |Levels(t, d)| == Size(Top(t, d))
  {
    if d > 0 {
      LevelsSize(t, d - 1);
      LevelSize(t, d - 1);
    }
  }

  ghost function KeysOf(pairs: seq<Pair>): set<int> {
    set p | p in pairs :: p.0
  }

  /** The keys of the tree are the keys ever inserted. */
  lemma {:induction false} InsertAllKeys(t: Tree<string>, pairs: seq<Pair>)
    requires Avl(t)
    ensures Keys(InsertAll(t, pairs)) == Keys(t) + KeysOf(pairs)
  {
    if pairs != [] {
      var init, last := pairs[..|pairs| - 1], pairs[|pairs| - 1];
      InsertAllKeys(t, init);
      InsertAllAvl(t, init);
      InsertMap(InsertAll(t, init), last.0, last.1);
      KeysOfLast(pairs);
    }
  }

  lemma KeysOfLast(pairs: seq<Pair>)
    requires pairs != []
    ensures KeysOf(pairs) == KeysOf(pairs[..|pairs| - 1]) + {pairs[|pairs| - 1].0}
  {
    assert pairs == pairs[..|pairs| - 1] + [pairs[|pairs| - 1]];
  }

  lemma SizeIsKeys(pairs: seq<Pair>)
    ensures Avl(InsertAll(Leaf, pairs)) && Size(InsertAll(Leaf, pairs)) == |KeysOf(pairs)|
  {
    hide InsertAll, Size, KeysOf;
    NothingStored();
    InsertAllAvl(Leaf, pairs);
    InsertAllKeys(Leaf, pairs);
    SizeIsCount(InsertAll(Leaf, pairs));
    assert {} + KeysOf(pairs) == KeysOf(pairs);
  }

  lemma NothingStored()
    ensures Avl<string>(Leaf) && Keys<string>(Leaf) == {}
  {
  }

  /** Every balanced search tree is the result of as many insertions as it has nodes. */
  lemma AvlReachable(t: Tree<string>) returns (pairs: seq<Pair>)
    requires Avl(t)
    ensures InsertAll(Leaf, pairs) == t && |pairs| == |KeysOf(pairs)| == Size(t)
  {
    hide InsertAll, Levels, KeysOf;
    pairs := Levels(t, Height(t));
    InsertLevels(t, Height(t));
    TopHeight(t, Height(t));
    LevelsSize(t, Height(t));
    SizeIsKeys(pairs);
  }

  /** All runs of insertions of at most n different keys stay within a height if
      and only if n is below the size of the sparsest tree that exceeds it. */
  lemma RunsFit(n: nat, bound: nat)
    ensures (forall pairs: seq<Pair> :: |KeysOf(pairs)| <= n ==> Height(InsertAll(Leaf, pairs)) <= bound)
      <==> n < MinSize(bound + 1)
  {
    hide InsertAll, Height, KeysOf, MinSize;
    if n >= MinSize(bound + 1) {
      SparsestIsAvl(bound + 1, 1);
      var pairs := AvlReachable(Sparsest(bound + 1, 1));
      assert |KeysOf(pairs)| <= n && Height(InsertAll(Leaf, pairs)) > bound;
    } else {
      forall pairs: seq<Pair> | |KeysOf(pairs)| <= n ensures Height(InsertAll(Leaf, pairs)) <= bound {
        SizeIsKeys(pairs);
        LowBySize(InsertAll(Leaf, pairs), bound);
      }
    }
  }
}

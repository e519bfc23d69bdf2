/** The counters of QOS when they are kept in the oblivious map: the tree holds
    for every keyword its search counter and its last position. */
module QosCounter {
  import opened AvlTree

  datatype Counters = Counters(src: nat, aw: nat)

  /** incrementSrcCnt on the tree below a node. */
  function IncrementSrc(t: Tree<Counters>, key: int): Tree<Counters> {
    if t.Leaf? then t
    else if t.key > key then t.(left := IncrementSrc(t.left, key))
    else if t.key < key then t.(right := IncrementSrc(t.right, key))
    else t.(value := t.value.(src := t.value.src + 1))
  }

  /** incrementAwCnt: below the root it continues as incrementSrcCnt. */
  function IncrementAw(t: Tree<Counters>, key: int): Tree<Counters> {
    if t.Leaf? then t
    else if t.key > key then t.(left := IncrementSrc(t.left, key))
    else if t.key < key then t.(right := IncrementSrc(t.right, key))
    else t.(value := t.value.(aw := t.value.aw + 1))
  }

  /** The map with one more search of the keyword. */
  ghost function Searched(m: map<int, Counters>, key: int): map<int, Counters> {
    if key in m then m[key := m[key].(src := m[key].src + 1)] else m
  }

  /** The map with one more position of the keyword. */
  ghost function Extended(m: map<int, Counters>, key: int): map<int, Counters> {
    if key in m then m[key := m[key].(aw := m[key].aw + 1)] else m
  }

  /** incrementSrcCnt adds one to the search counter of the key and does nothing else. */
  lemma {:induction false} IncrementSrcMap(t: Tree<Counters>, key: int)
    requires Ordered(t)
    ensures Contents(IncrementSrc(t, key)) == Searched(Contents(t), key)
  {
    hide Ordered, Contents, Searched;
    if t.Node? {
      OrderedParts(t);
      if key < t.key {
        IncrementSrcMap(t.left, key);
        LeftSearched(t, key);
      } else if key > t.key {
        IncrementSrcMap(t.right, key);
        RightSearched(t, key);
      } else {
        HereSearched(t);
      }
    } else {
      NothingSearched(t, key);
    }
  }

  lemma {:induction false} LeftSearched(t: Tree<Counters>, key: int)
    requires t.Node? && Ordered(t) && key < t.key
    requires Contents(IncrementSrc(t.left, key)) == Searched(Contents(t.left), key)
    ensures Contents(t.(left := IncrementSrc(t.left, key))) == Searched(Contents(t), key)
  {
    hide IncrementSrc, Searched;
    ContentsUnfold(t, key);
    SearchedLeft(Contents(t.left), Contents(t.right), t.key, t.value, key);
  }

  lemma {:induction false} RightSearched(t: Tree<Counters>, key: int)
    requires t.Node? && Ordered(t) && key > t.key
    requires Contents(IncrementSrc(t.right, key)) == Searched(Contents(t.right), key)
    ensures Contents(t.(right := IncrementSrc(t.right, key))) == Searched(Contents(t), key)
  {
    hide IncrementSrc, Searched;
    ContentsUnfold(t, key);
    SearchedRight(Contents(t.left), Contents(t.right), t.key, t.value, key);
  }

  lemma {:induction false} HereSearched(t: Tree<Counters>)
    requires t.Node?
    ensures Contents(t.(value := t.value.(src := t.value.src + 1))) == Searched(Contents(t), t.key)
  {
  }

  lemma {:induction false} NothingSearched(t: Tree<Counters>, key: int)
    requires t.Leaf?
    ensures Contents(t) == Searched(Contents(t), key)
  {
  }

  lemma {:induction false} ContentsUnfold(t: Tree<Counters>, key: int)
    requires t.Node? && Ordered(t)
    ensures Contents(t) == Contents(t.left) + Contents(t.right) + map[t.key := t.value]
    ensures key < t.key ==> key !in Contents(t.right)
    ensures key > t.key ==> key !in Contents(t.left)
  {
    ContentsKeys(t.left);
    ContentsKeys(t.right);
    OutOfOrder(t, key);
  }

  lemma SearchedLeft(a: map<int, Counters>, b: map<int, Counters>, x: int, u: Counters, key: int)
    requires key !in b && key != x
    ensures Searched(a, key) + b + map[x := u] == Searched(a + b + map[x := u], key)
  {
  }

  lemma SearchedRight(a: map<int, Counters>, b: map<int, Counters>, x: int, u: Counters, key: int)
    requires key !in a && key != x
    ensures a + Searched(b, key) + map[x := u] == Searched(a + b + map[x := u], key)
  {
  }

  /** What incrementAwCnt does instead when the key is not at the root. */
  lemma {:induction false} IncrementAwMap(t: Tree<Counters>, key: int)
    requires Ordered(t)
    ensures Contents(IncrementAw(t, key)) ==
            if t.Node? && t.key == key then Extended(Contents(t), key) else Searched(Contents(t), key)
  {
    if t.Node? && t.key == key {
      LookupSide(t, key);
    } else {
      IncrementSrcMap(t, key);
    }
  }

  /** incrementAwCnt counts a position if and only if the key is at the root or
      not stored at all. */
  lemma IncrementAwExactly(t: Tree<Counters>, key: int)
    requires Ordered(t)
    ensures Contents(IncrementAw(t, key)) == Extended(Contents(t), key) <==> key !in Keys(t) || t.key == key
  {
    hide IncrementAw, Contents, Keys, Ordered;
    IncrementAwMap(t, key);
    ContentsKeys(t);
    StoredInNode(t, key);
    var m := Contents(t);
    if key in m {
      assert Extended(m, key)[key] != Searched(m, key)[key];
    }
  }

  lemma {:induction false} StoredInNode(t: Tree<Counters>, key: int)
    ensures key in Keys(t) ==> t.Node?
    ensures t.Node? ==> t.key in Keys(t)
  {
  }

  /** With two keywords the second insert of the one below the root raises its
      search counter and leaves its last position as it was. */
  lemma SecondInsertMiscounts()
    ensures var t := Insert(Insert(Leaf, 1, Counters(0, 0)), 2, Counters(0, 0));
            var m := Contents(IncrementAw(t, 2)); 2 in m && m[2] == Counters(1, 0)
  {
    var one := Insert(Leaf, 1, Counters(0, 0));
    var t := Insert(one, 2, Counters(0, 0));
    assert one == Node(Leaf, 1, Counters(0, 0), Leaf);
    assert t == Node(Leaf, 1, Counters(0, 0), Node(Leaf, 2, Counters(0, 0), Leaf));
    assert IncrementAw(t, 2) == Node(Leaf, 1, Counters(0, 0), Node(Leaf, 2, Counters(1, 0), Leaf));
  }
}

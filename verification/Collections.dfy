/** Ordered iteration over dictionaries keyed by integers. */
module Collections {

  ghost predicate Ascending(r: seq<int>) {
    forall i, j :: 0 <= i < j < |r| ==> r[i] < r[j]
  }

  ghost predicate Distinct(s: seq<int>) {
    forall i, j :: 0 <= i < j < |s| ==> s[i] != s[j]
  }

  lemma EmptyOrHead(s: seq<int>)
    ensures s == [] || s[0] in s
  {
  }

  lemma {:induction false} AscendingUnique(a: seq<int>, b: seq<int>)
    requires Ascending(a) && Ascending(b)
    requires forall x :: x in a <==> x in b
    ensures a == b
  {
    EmptyOrHead(a);
    EmptyOrHead(b);
    if a != [] && b != [] {
      assert a[0] in a && a[0] in b;
      assert b[0] in b && b[0] in a;
      assert a[0] == b[0];
      assert a == [a[0]] + a[1..] && b == [b[0]] + b[1..];
      forall x ensures x in a[1..] <==> x in b[1..] {
        assert x in a[1..] <==> x in a && x != a[0];
        assert x in b[1..] <==> x in b && x != b[0];
      }
      AscendingUnique(a[1..], b[1..]);
    }
  }

  lemma EmptySet<T>(s: set<T>)
    requires forall x :: x !in s
    ensures s == {}
  {
  }

  lemma SomeElement<T>(s: set<T>) returns (x: T)
    requires s != {}
    ensures x in s
  {
    x :| x in s;
  }

  /** One more candidate for a set of positions. */
  lemma CountNext(before: set<nat>, here: set<nat>, k: nat, own: bool)
    requires k !in before && forall j: nat :: j in here <==> j in before || (own && j == k)
    ensures |here| == |before| + if own then 1 else 0
  {
    assert here == if own then before + {k} else before;
  }

  method Pick<T>(s: set<T>) returns (x: T)
    requires s != {}
    ensures x in s
  {
    x :| x in s;
  }

  /** Least key of a non-empty ordered dictionary. */
  method LeastKey(keys: set<int>) returns (k: int)
    requires keys != {}
    ensures k in keys && forall x :: x in keys ==> k <= x
  {
    k := Pick(keys);
    var rest := keys - {k};
    while rest != {}
      invariant rest <= keys && k in keys
      invariant forall x :: x in keys && x !in rest ==> k <= x
      decreases rest
    {
      var y := Pick(rest);
      rest := rest - {y};
      if y < k { k := y; }
    }
  }

  /** The keys of an ordered dictionary, in iteration order. */
  method OrderedKeys(keys: set<int>) returns (r: seq<int>)
    ensures Ascending(r)
    ensures forall x :: x in r <==> x in keys
  {
    r := [];
    var rest := keys;
    while rest != {}
      invariant rest <= keys
      invariant Ascending(r)
      invariant forall x :: x in r <==> x in keys && x !in rest
      invariant forall i, y :: 0 <= i < |r| && y in rest ==> r[i] < y
      decreases rest
    {
      var x := LeastKey(rest);
      r := r + [x];
      rest := rest - {x};
    }
  }
}

/** The QOS server: the encrypted index I, the deletion marks Dstate and the
    pruned search from the covering set. Keys that the source derives with a
    PRF are the tuples they stand for. */
module QosServer {
  import opened Powers
  import opened HeapTree
  import opened Collections
  import opened QosVisit
  import opened QosCover

  /** Names one search epoch of a keyword. */
  datatype Token = Token(keyword: string, srcCnt: nat)

  datatype Tag = Tag(token: Token, node: int)

  datatype Entry = Entry(keyword: string, id: int)

  datatype DTag = Mark(token: Token, node: int) | Dummy(nonce: int)

  /** The marked nodes of one search epoch. */
  ghost function Marks(dstate: set<DTag>, token: Token): set<int> {
    set x | x in dstate && x.Mark? && x.token == token :: x.node
  }

  lemma InMarks(dstate: set<DTag>, token: Token, n: int)
    ensures n in Marks(dstate, token) <==> Mark(token, n) in dstate
  {
    if Mark(token, n) in dstate { assert Mark(token, n).node == n; }
  }

  ghost function Elements(nodes: seq<int>): set<int> {
    set n | n in nodes
  }

  ghost function Erased(token: Token, nodes: seq<int>): set<DTag> {
    set n | n in nodes :: Mark(token, n)
  }

  lemma MarksErased(dstate: set<DTag>, token: Token, nodes: seq<int>)
    ensures Marks(dstate - Erased(token, nodes), token) == Marks(dstate, token) - Elements(nodes)
  {
    forall n ensures n in Marks(dstate - Erased(token, nodes), token) <==>
                     n in Marks(dstate, token) - Elements(nodes) {
      InMarks(dstate - Erased(token, nodes), token, n);
      InMarks(dstate, token, n);
    }
  }

  lemma ErasedNone(dstate: set<DTag>, token: Token, n: int)
    ensures dstate - Erased(token, []) == dstate && Erased(token, [n]) == {Mark(token, n)}
  {
  }

  lemma ErasedJoins(dstate: set<DTag>, token: Token, a: seq<int>, b: seq<int>)
    ensures dstate - Erased(token, a) - Erased(token, b) == dstate - Erased(token, a + b)
  {
  }

  lemma LogOfOne()
    ensures FloorLog2(1) == 0 && Pow2(0) == 1
  {
  }

  lemma CoverEnds(hi: nat)
    ensures CoverFrom(hi, hi) == []
  {
  }

  lemma CoverUnfolds(lo: nat, hi: nat)
    requires lo < hi
    ensures var k := FloorLog2(hi - lo);
            CoverFrom(lo, hi) == [Climb(lo + Pow2(k) - 1, k)] + CoverFrom(lo + Pow2(k), hi)
  {
  }

  // ----- the search over a row of subtrees -----

  ghost predicate TreeNodes(h: nat, cover: seq<nat>) {
    forall i :: 0 <= i < |cover| ==> 1 <= cover[i] < Pow2(h + 1)
  }

  ghost function FoundAll(h: nat, cover: seq<nat>, marks: set<int>): seq<int>
    requires TreeNodes(h, cover)
  {
    if cover == [] then []
    else
      var c := cover[|cover| - 1];
      FoundAll(h, cover[..|cover| - 1], marks) + Found(c, HeightOf(h, c), marks)
  }

  ghost function HitsAll(h: nat, cover: seq<nat>, marks: set<int>): seq<int>
    requires TreeNodes(h, cover)
  {
    if cover == [] then []
    else
      var c := cover[|cover| - 1];
      HitsAll(h, cover[..|cover| - 1], marks) + Hits(c, HeightOf(h, c), marks)
  }

  ghost function CallsAll(h: nat, cover: seq<nat>, marks: set<int>): nat
    requires TreeNodes(h, cover)
  {
    if cover == [] then 0
    else
      var c := cover[|cover| - 1];
      CallsAll(h, cover[..|cover| - 1], marks) + Calls(c, HeightOf(h, c), marks)
  }

  ghost predicate InTree(h: nat, marks: set<int>) {
    forall n :: n in marks ==> 0 <= n && n + 1 < Pow2(h + 1)
  }

  lemma {:induction false} HitsAllWithin(h: nat, cover: seq<nat>, marks: set<int>, n: int) returns (j: nat)
    requires TreeNodes(h, cover)
    requires n in HitsAll(h, cover, marks)
    ensures j < |cover| && n in marks && Within(cover[j], n + 1)
    ensures n in Hits(cover[j], HeightOf(h, cover[j]), marks)
  {
    var last := |cover| - 1;
    if n in Hits(cover[last], HeightOf(h, cover[last]), marks) {
      HitsMarked(cover[last], HeightOf(h, cover[last]), marks);
      j := last;
    } else {
      j := HitsAllWithin(h, cover[..last], marks, n);
    }
  }

  lemma {:induction false} HitsAllHas(h: nat, cover: seq<nat>, marks: set<int>, j: nat, n: int)
    requires TreeNodes(h, cover)
    requires j < |cover| && n in Hits(cover[j], HeightOf(h, cover[j]), marks)
    ensures n in HitsAll(h, cover, marks)
    decreases |cover|
  {
    if j < |cover| - 1 { HitsAllHas(h, cover[..|cover| - 1], marks, j, n); }
  }

  /** The hits of earlier members of the row do not touch a later member. */
  lemma NextUnaffected(h: nat, cover: seq<nat>, lo: nat, hi: nat, i: nat, marks: set<int>, marks': set<int>)
    requires Row(h, cover, lo, hi) && i < |cover| && InTree(h, marks)
    requires TreeNodes(h, cover)
    requires marks' == marks - Elements(HitsAll(h, cover[..i], marks))
    ensures Found(cover[i], HeightOf(h, cover[i]), marks') == Found(cover[i], HeightOf(h, cover[i]), marks)
    ensures Hits(cover[i], HeightOf(h, cover[i]), marks') == Hits(cover[i], HeightOf(h, cover[i]), marks)
    ensures Calls(cover[i], HeightOf(h, cover[i]), marks') == Calls(cover[i], HeightOf(h, cover[i]), marks)
  {
    hide Row, Found, Hits, Calls, HitsAll, Within, HeightOf;
    forall n | Within(cover[i], n + 1) ensures n in marks' <==> n in marks {
      if n in HitsAll(h, cover[..i], marks) {
        var j := HitsAllWithin(h, cover[..i], marks, n);
        SameMember(h, cover, lo, hi, i, j, n + 1);
      }
    }
    VisitLocal(cover[i], HeightOf(h, cover[i]), marks', marks);
  }

  /** The dictionary entries that a list of leaf indices finds. */
  ghost function Lookup(entries: map<Tag, Entry>, token: Token, indexes: seq<int>): map<int, Entry> {
    map n | n in indexes && Tag(token, n) in entries :: entries[Tag(token, n)]
  }

  ghost function Tags(token: Token, indexes: seq<int>): set<Tag> {
    set n | n in indexes :: Tag(token, n)
  }

  ghost predicate Present(entries: map<Tag, Entry>, token: Token, indexes: seq<int>) {
    forall i :: 0 <= i < |indexes| ==> Tag(token, indexes[i]) in entries
  }

  /** How many of the leaves have no entry when their turn comes: each is removed
      when it is found. */
  ghost function Absent(entries: map<Tag, Entry>, token: Token, indexes: seq<int>): nat {
    if indexes == [] then 0
    else
      var init, n := indexes[..|indexes| - 1], indexes[|indexes| - 1];
      Absent(entries, token, init) + if Tag(token, n) in entries && n !in init then 0 else 1
  }

  lemma AbsentStep(entries: map<Tag, Entry>, token: Token, init: seq<int>, n: int)
    ensures Absent(entries, token, []) == 0
    ensures Absent(entries, token, init + [n]) ==
            Absent(entries, token, init) + if Tag(token, n) in entries && n !in init then 0 else 1
  {
    assert (init + [n])[..|init|] == init;
  }

  lemma {:induction false} NoneAbsent(entries: map<Tag, Entry>, token: Token, indexes: seq<int>)
    requires Distinct(indexes) && Present(entries, token, indexes)
    ensures Absent(entries, token, indexes) == 0
  {
    if indexes != [] { NoneAbsent(entries, token, indexes[..|indexes| - 1]); }
  }

  class Server {
    const h: nat
    var entries: map<Tag, Entry>
    var dstate: set<DTag>
    /** Calls of the recursive search made so far. */
    ghost var visits: nat

    constructor (N: nat)
      requires N >= 1
      ensures h == CeilLog2(N) && entries == map[] && dstate == {} && visits == 0
    {
      h := CeilLog2(N);
      entries, dstate, visits := map[], {}, 0;
    }

    method Insert(key: Tag, value: Entry)
      modifies this`entries, this`dstate
      ensures entries == old(entries)[key := value] && dstate == old(dstate)
    {
      entries := entries[key := value];
    }

    method InsertInDstate(key: DTag)
      modifies this`entries, this`dstate
      ensures dstate == old(dstate) + {key} && entries == old(entries)
    {
      dstate := dstate + {key};
    }

    /** The write-back of a search: new entries and the marks to keep. */
    method InsertBatch(keys: seq<Tag>, values: seq<Entry>, dkeys: seq<DTag>)
      requires |keys| == |values| && forall i, j :: 0 <= i < j < |keys| ==> keys[i] != keys[j]
      modifies this`entries, this`dstate
      ensures entries.Keys == old(entries).Keys + (set x | x in keys)
      ensures forall i :: 0 <= i < |keys| ==> entries[keys[i]] == values[i]
      ensures forall x :: x in old(entries) && x !in keys ==> entries[x] == old(entries)[x]
      ensures dstate == old(dstate) + (set x | x in dkeys)
    {
      for i := 0 to |keys|
        invariant dstate == old(dstate)
        invariant entries.Keys == old(entries).Keys + (set x | x in keys[..i])
        invariant forall j :: 0 <= j < i ==> entries[keys[j]] == values[j]
        invariant forall x :: x in old(entries) && x !in keys[..i] ==> entries[x] == old(entries)[x]
      {
        assert keys[..i + 1] == keys[..i] + [keys[i]];
        entries := entries[keys[i] := values[i]];
      }
      assert keys[..|keys|] == keys;
      for i := 0 to |dkeys|
        invariant entries.Keys == old(entries).Keys + (set x | x in keys)
        invariant forall j :: 0 <= j < |keys| ==> entries[keys[j]] == values[j]
        invariant forall x :: x in old(entries) && x !in keys ==> entries[x] == old(entries)[x]
        invariant dstate == old(dstate) + (set x | x in dkeys[..i])
      {
        assert dkeys[..i + 1] == dkeys[..i] + [dkeys[i]];
        dstate := dstate + {dkeys[i]};
      }
      assert dkeys[..|dkeys|] == dkeys;
    }

    /** The greedy binary decomposition of the positions 0 .. aw. */
    method FindCoveringSet(aw: int) returns (cover: seq<nat>)
      requires -1 <= aw < Pow2(h)
      ensures |cover| == |CoverFrom(Pow2(h), Pow2(h) + aw + 1)|
      ensures forall i :: 0 <= i < |cover| ==> cover[i] + 1 == CoverFrom(Pow2(h), Pow2(h) + aw + 1)[i]
    {
      hide CoverFrom, CoverReady, FloorLog2, HeightOf, Climb, Start;
      cover := [];
      ghost var hi := Pow2(h) + aw + 1;
      LogOfOne();
      CoverEnds(hi);
      var left, total := aw, 0;
      CoverStarts(h, aw + 1);
      ghost var done: seq<nat> := [];
      while left >= 0
        invariant -1 <= left && 0 <= total && total + left == aw
        invariant CoverReady(h, Pow2(h) + total, hi)
        invariant done + CoverFrom(Pow2(h) + total, hi) == CoverFrom(Pow2(h), hi)
        invariant |done| == |cover| && forall i :: 0 <= i < |cover| ==> cover[i] + 1 == done[i]
        decreases left + 1
      {
        ghost var lo := Pow2(h) + total;
        CoverBlock(h, lo, hi);
        CoverUnfolds(lo, hi);
        var lastTreeHeight := if left == 0 then 1 else FloorLog2(left + 1) + 1;
        var lastIndex := if left == 0 then 0 else Pow2(FloorLog2(left + 1)) - 1;
        var index := GetNodeOnPath(h, lastIndex + total, h + 1, h + 1 - lastTreeHeight + 1);
        cover := cover + [index];
        done := done + [index + 1];
        left := left - (lastIndex + 1);
        total := total + lastIndex + 1;
      }
    }

    /** Collect live leaves; at a mark, report it and forget it. */
    method RecursiveSearch(token: Token, index: nat) returns (result: seq<int>, deletes: seq<int>, calls: nat)
      requires index + 1 < Pow2(h + 1)
      modifies this`dstate, this`visits
      ensures var m, marks := index + 1, Marks(old(dstate), token);
              && result == Found(m, HeightOf(h, m), marks)
              && deletes == Hits(m, HeightOf(h, m), marks)
              && calls == Calls(m, HeightOf(h, m), marks)
      ensures dstate == old(dstate) - Erased(token, deletes) && visits == old(visits) + calls
      decreases HeightOf(h, index + 1)
    {
      hide HeightOf, Marks, Erased, Found, Hits, Calls, Pow2;
      visits := visits + 1;
      ghost var m, k, before := index + 1, HeightOf(h, index + 1), dstate;
      ErasedNone(dstate, token, index);
      ghost var marks := Marks(dstate, token);
      InMarks(dstate, token, index);
      LeafHeight(h, m);
      VisitUnfold(m, k, marks);
      if Mark(token, index) !in dstate {
        if index >= Pow2(h) - 1 {
          result, deletes, calls := [index], [], 1;
        } else {
          ChildHeight(h, m, k, 2 * m);
          ChildHeight(h, m, k, 2 * m + 1);
          var r1, d1, c1 := RecursiveSearch(token, index * 2 + 1);
          MarksErased(before, token, d1);
          RightUnaffected(m, k - 1, marks, Marks(dstate, token));
          var r2, d2, c2 := RecursiveSearch(token, index * 2 + 2);
          ErasedJoins(before, token, d1, d2);
          result, deletes, calls := r1 + r2, d1 + d2, 1 + c1 + c2;
        }
      } else {
        result, deletes, calls := [], [index], 1;
        dstate := dstate - {Mark(token, index)};
      }
    }

    /** Search from every subtree of the cover. */
    method SearchCover(token: Token, aw: int) returns (indexes: seq<int>, deletes: seq<int>, calls: nat)
      requires -1 <= aw < Pow2(h) && InTree(h, Marks(dstate, token))
      modifies this`dstate, this`visits
      ensures var cover, marks := CoverFrom(Pow2(h), Pow2(h) + aw + 1), Marks(old(dstate), token);
              && TreeNodes(h, cover)
              && indexes == FoundAll(h, cover, marks)
              && deletes == HitsAll(h, cover, marks)
              && calls == CallsAll(h, cover, marks)
      ensures dstate == old(dstate) - Erased(token, deletes) && visits == old(visits) + calls
    {
      hide CoverFrom, CoverReady, Marks, Erased, Found, Hits, Calls, HeightOf, Row, Pow2;
      ghost var lo, hi, marks := Pow2(h), Pow2(h) + aw + 1, Marks(dstate, token);
      ghost var cover := CoverFrom(lo, hi);
      CoverStarts(h, aw + 1);
      CoverIsRow(h, lo, hi);
      RowInTree(h, cover, lo, hi);
      var t := FindCoveringSet(aw);
      indexes, deletes, calls := [], [], 0;
      ErasedNone(dstate, token, 0);
      for i := 0 to |t|
        invariant indexes == FoundAll(h, cover[..i], marks)
        invariant deletes == HitsAll(h, cover[..i], marks)
        invariant calls == CallsAll(h, cover[..i], marks)
        invariant dstate == old(dstate) - Erased(token, deletes) && visits == old(visits) + calls
      {
        MarksErased(old(dstate), token, deletes);
        NextUnaffected(h, cover, lo, hi, i, marks, Marks(dstate, token));
        var r, d, c := RecursiveSearch(token, t[i]);
        assert cover[..i + 1][..i] == cover[..i];
        ErasedJoins(old(dstate), token, deletes, d);
        indexes, deletes, calls := indexes + r, deletes + d, calls + c;
      }
      assert cover[..|t|] == cover;
    }

    /** Fetch and remove the entries found; missing counts the "already removed" reports. */
    method Fetch(token: Token, indexes: seq<int>) returns (result: map<int, Entry>, missing: nat)
      modifies this`entries
      ensures result == Lookup(old(entries), token, indexes)
      ensures entries == old(entries) - Tags(token, indexes)
      ensures missing == Absent(old(entries), token, indexes)
    {
      hide Absent;
      AbsentStep(entries, token, [], 0);
      result, missing := map[], 0;
      for i := 0 to |indexes|
        invariant result == Lookup(old(entries), token, indexes[..i])
        invariant entries == old(entries) - Tags(token, indexes[..i])
        invariant missing == Absent(old(entries), token, indexes[..i])
      {
        var key := Tag(token, indexes[i]);
        assert indexes[..i + 1] == indexes[..i] + [indexes[i]];
        AbsentStep(old(entries), token, indexes[..i], indexes[i]);
        if key in entries {
          result := result[indexes[i] := entries[key]];
          entries := entries - {key};
        } else {
          missing := missing + 1;
        }
      }
      assert indexes[..|indexes|] == indexes;
    }

    /** What Server::search returns, with the list of leaves it visited. */
    method Search(token: Token, aw: int)
      returns (result: map<int, Entry>, deletes: seq<int>, calls: nat, missing: nat, ghost indexes: seq<int>)
      requires -1 <= aw < Pow2(h) && InTree(h, Marks(dstate, token))
      modifies this
      ensures var cover, marks := CoverFrom(Pow2(h), Pow2(h) + aw + 1), Marks(old(dstate), token);
              && TreeNodes(h, cover)
              && indexes == FoundAll(h, cover, marks)
              && deletes == HitsAll(h, cover, marks)
              && calls == CallsAll(h, cover, marks)
      ensures result == Lookup(old(entries), token, indexes)
      ensures entries == old(entries) - Tags(token, indexes)
      ensures dstate == old(dstate) - Erased(token, deletes) && visits == old(visits) + calls
      ensures missing == Absent(old(entries), token, indexes)
    {
      var found;
      found, deletes, calls := SearchCover(token, aw);
      result, missing := Fetch(token, found);
      indexes := found;
    }
  }

  lemma RowInTree(h: nat, cover: seq<nat>, lo: nat, hi: nat)
    requires Row(h, cover, lo, hi)
    ensures TreeNodes(h, cover)
  {
  }

  lemma LeafHeight(h: nat, m: nat)
    requires 1 <= m < Pow2(h + 1)
    ensures HeightOf(h, m) == 0 <==> m >= Pow2(h)
  {
    var k := HeightOf(h, m);
    if k > 0 { Pow2Monotone(h - k + 1, h); }
  }
}

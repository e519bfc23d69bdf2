/** The QOS client: counters, positions and colours per keyword, and the
    operations insert, remove and search against the server. */
module QosClient {
  import opened Powers
  import opened HeapTree
  import opened Collections
  import opened QosColouring
  import opened QosVisit
  import opened QosCover
  import opened QosServer
  import opened QosState

  class Client {
    const h: nat
    const server: Server
    var ocnt: map<string, (nat, int)>
    var odel: map<(string, int), int>
    var ostate: map<(string, int), int>
    ghost var spec: Spec

    ghost function View(): State
      reads this, server
    {
      State(ocnt, odel, ostate, server.entries, server.dstate)
    }

    ghost predicate Valid()
      reads this, server
    {
      server.h == h && Invariant(h, View(), spec)
    }

    constructor (server: Server, N: nat)
      requires N >= 1 && server.h == CeilLog2(N) && server.entries == map[] && server.dstate == {}
      ensures Valid() && h == CeilLog2(N) && this.server == server && spec == Spec(map[], map[])
    {
      this.server := server;
      h := CeilLog2(N);
      ocnt, odel, ostate := map[], map[], map[];
      spec := Spec(map[], map[]);
      InitialInvariant(CeilLog2(N));
    }

    /** The tree has room for one more position of the keyword. */
    ghost predicate Room(w: string)
      reads this
    {
      w in spec.ids ==> |spec.ids[w]| < Pow2(h)
    }

    method Insert(keyword: string, id: int)
      requires Valid() && Room(keyword)
      modifies this, server
      ensures Valid() && spec == SpecInsert(old(spec), keyword, id) && server.visits == old(server.visits)
      ensures odel == old(odel)[(keyword, id) := if keyword in old(spec).ids then |old(spec).ids[keyword]| else 0]
      ensures keyword in ocnt && (keyword, id) in odel
      ensures var tag := Tag(Token(keyword, ocnt[keyword].0), Pow2(h) - 1 + odel[(keyword, id)]);
              server.entries == old(server.entries)[tag := Entry(keyword, id)]
    {
      hide Invariant, SpecInsert, Pow2;
      ghost var before := View();
      InsertKeeps(h, before, spec, keyword, id);
      KeyShape(h, before, spec, keyword);
      var src, aw := 0, -1;
      if keyword in ocnt {
        src, aw := ocnt[keyword].0, ocnt[keyword].1;
      }
      aw := aw + 1;
      ocnt := ocnt[keyword := (src, aw)];
      odel := odel[(keyword, id) := aw];
      var node := GetNodeOnPath(h, aw, h + 1, h + 1);
      server.Insert(Tag(Token(keyword, src), node), Entry(keyword, id));
      spec := SpecInsert(spec, keyword, id);
      assert View() == Inserted(h, before, keyword, id);
    }

    function Colour(w: string, n: int): int
      reads this
    {
      if (w, n) in ostate then ostate[(w, n)] else 0
    }

    /** Indices on the path from a leaf to the root and of their siblings. */
    method PathNodes(pos: nat) returns (nodes: seq<int>, siblings: seq<int>)
      requires pos < Pow2(h)
      ensures |nodes| == h + 1 && forall i :: 0 <= i <= h ==> nodes[i] == Climb(pos + Pow2(h), i) - 1
      ensures |siblings| == h && forall i :: 0 <= i < h ==> siblings[i] == Sibling(Climb(pos + Pow2(h), i)) - 1
    {
      hide Climb, Sibling, Pow2;
      nodes, siblings := [], [];
      LeafInTree(h, pos);
      ghost var q := pos + Pow2(h);
      for i := h + 2 downto 1
        invariant |nodes| == h + 2 - i && forall t :: 0 <= t < |nodes| ==> nodes[t] == Climb(q, t) - 1
        invariant |siblings| == (if i == 1 then h else h + 2 - i)
        invariant forall t :: 0 <= t < |siblings| ==> siblings[t] == Sibling(Climb(q, t)) - 1
      {
        var index := GetNodeOnPath(h, pos, h + 1, i);
        ClimbBounds(h, q, h + 1 - i);
        RootOnlyAtTop(h, i, index);
        SiblingIndex(index);
        nodes := nodes + [index];
        if index % 2 == 0 && index != 0 {
          siblings := siblings + [index - 1];
        } else if index % 2 != 0 && index != 0 {
          siblings := siblings + [index + 1];
        }
      }
    }

    /** The colours a removal gives to the path: 2 up to the first unmarked sibling. */
    method FinalColours(siblingsColour: seq<int>) returns (colours: seq<int>, ghost top: nat)
      requires |siblingsColour| == h
      ensures |colours| == h + 1 && top <= h
      ensures forall i :: 0 <= i <= h ==> colours[i] == if i <= top then 2 else 0
      ensures forall i :: 0 <= i < top ==> siblingsColour[i] == 2
      ensures top < h ==> siblingsColour[top] != 2
    {
      colours, top := [2], 0;
      for i := 1 to h + 1
        invariant |colours| == i && top < i
        invariant forall j :: 0 <= j < i ==> colours[j] == if j <= top then 2 else 0
        invariant forall j :: 0 <= j < top ==> siblingsColour[j] == 2
        invariant top < i - 1 ==> siblingsColour[top] != 2
      {
        if colours[i - 1] == 2 && siblingsColour[i - 1] == 2 {
          colours := colours + [2];
          top := i;
        } else {
          colours := colours + [0];
        }
      }
    }

    /** The single node a removal marks, or -1. */
    method ChooseMark(keyword: string, pos: nat) returns (mark: int, ghost top: nat, ghost j: int)
      requires pos < Pow2(h) && forall key :: key in ostate ==> ostate[key] == 2
      ensures Picks(h, pos + Pow2(h), ClientMarks(ostate, keyword), top, j)
      ensures if j < 0 then mark == -1 else mark == Climb(pos + Pow2(h), j) - 1
    {
      hide Climb, Sibling, ClientMarks;
      ghost var q, marks := pos + Pow2(h), ClientMarks(ostate, keyword);
      var nodes, siblings := PathNodes(pos);
      var nodesColour := seq(|nodes|, i requires 0 <= i < |nodes| reads this => Colour(keyword, nodes[i]));
      var siblingsColour := seq(|siblings|, i requires 0 <= i < |siblings| reads this => Colour(keyword, siblings[i]));
      var colours;
      colours, top := FinalColours(siblingsColour);
      forall i | 0 <= i <= h ensures nodesColour[i] == 2 <==> Climb(q, i) - 1 in marks {
        InClientMarks(ostate, keyword, nodes[i]);
      }
      forall i | 0 <= i < h ensures siblingsColour[i] == 2 <==> Sibling(Climb(q, i)) - 1 in marks {
        InClientMarks(ostate, keyword, siblings[i]);
      }
      mark, j := -1, -1;
      for i := |nodes| downto 0
        invariant mark == -1 && j == -1
        invariant forall t :: i <= t <= top ==> nodesColour[t] == 2
      {
        if colours[i] != nodesColour[i] && colours[i] == 2 {
          mark, j := nodes[i], i;
          break;
        }
      }
    }

    /** Fails, as the source does by an exception, when the pair was never inserted. */
    method Remove(keyword: string, id: int, nonce: int) returns (ok: bool)
      requires Valid()
      modifies this, server
      ensures ok <==> keyword in old(spec).ids && id in old(spec).ids[keyword]
      ensures ok ==> keyword in old(spec).dead && spec == SpecRemove(old(spec), keyword, id)
      ensures !ok ==> spec == old(spec)
      ensures Valid() && server.visits == old(server.visits)
    {
      hide Invariant, Picks, Climb;
      ghost var before := View();
      KeyShape(h, before, spec, keyword);
      KeyPositions(h, before, spec, keyword, id);
      if keyword !in ocnt || (keyword, id) !in odel {
        return false;
      }
      var src := ocnt[keyword].0;
      var pos := odel[(keyword, id)];
      ColoursAreTwo(h, before, spec);
      var mark, top, j := ChooseMark(keyword, pos);
      MarkInTree(h, pos, ClientMarks(ostate, keyword), top, j);
      RemoveKeeps(h, before, spec, keyword, id, top, j, nonce);
      if mark >= 0 {
        ostate := ostate[(keyword, mark) := 2];
        server.InsertInDstate(Mark(Token(keyword, src), mark));
      } else {
        server.InsertInDstate(Dummy(nonce));
      }
      assert View() == Removed(before, keyword, src, pos + Pow2(h), j, nonce);
      spec := SpecRemove(spec, keyword, id);
      ok := true;
    }

    /** Fails, as the source does, for a keyword never inserted. Otherwise the
        ids at the positions not removed, in position order; the server never
        reports data already removed, and its calls are bounded by the answer. */
    method Search(keyword: string) returns (ok: bool, ids: seq<int>, calls: nat, missing: nat)
      requires Valid()
      modifies this, server
      ensures Valid() && spec == old(spec)
      ensures ok <==> keyword in spec.ids
      ensures ok ==> keyword in spec.dead && ids == LiveIds(spec.ids[keyword], spec.dead[keyword])
      ensures missing == 0 && server.visits == old(server.visits) + calls
      ensures ok ==> calls <= |CoverFrom(Pow2(h), Pow2(h) + |spec.ids[keyword]|)| + 2 * (|ids| * h)
    {
      hide Invariant, LiveIds, CoverFrom, Marks, ClientMarks, FoundAll, HitsAll, CallsAll, Reissued, LiveLeaves,
           Lookup, Tags, Erased,
           Ascending, Distinct, Present, Absent, Rewritten, Pow2, Colouring, EntriesOk, Mirrors;
      ghost var before := View();
      KeyShape(h, before, spec, keyword);
      if keyword !in ocnt {
        return false, [], 0, 0;
      }
      var src, aw := ocnt[keyword].0, ocnt[keyword].1;
      ghost var known, dead := spec.ids[keyword], spec.dead[keyword];
      KeyColouring(h, before, spec, keyword);
      var token := Token(keyword, src);
      var result, deletes, n, m, indexes := server.Search(token, aw);
      SearchFinds(h, |known|, dead, ClientMarks(ostate, keyword), Marks(before.dstate, token));
      EntriesFound(h, before, spec, keyword, indexes);
      calls, missing := n, m;
      NoneAbsent(before.entries, token, indexes);
      var order := OrderedKeys(result.Keys);
      LookupKeys(before.entries, token, indexes, result);
      AscendingUnique(order, indexes);
      ids := [];
      for i := 0 to |order|
        invariant |ids| == i && forall t :: 0 <= t < i ==> ids[t] == result[order[t]].id
      {
        ids := ids + [result[order[i]].id];
      }
      AnswerIsLiveIds(h, known, dead, ids);
      SearchKeeps(h, before, spec, keyword, indexes, deletes);
      ocnt := ocnt[keyword := (src + 1, aw)];
      WriteBack(keyword, src, order, ids, deletes);
      RewrittenIsReissued(before.entries, server.entries, keyword, src, indexes, ids);
      assert View() == Searched(before, keyword, indexes, deletes);
      ok := true;
    }

    /** Clean-up after a search: reissue the entries found and the marks hit. */
    method WriteBack(keyword: string, src: nat, order: seq<int>, ids: seq<int>, deletes: seq<int>)
      requires |order| == |ids| && Ascending(order)
      modifies server`entries, server`dstate
      ensures Rewritten(old(server.entries), server.entries, keyword, src + 1, order, ids)
      ensures server.dstate == old(server.dstate) + Erased(Token(keyword, src + 1), deletes)
    {
      var now := Token(keyword, src + 1);
      var keys := seq(|order|, i requires 0 <= i < |order| => Tag(now, order[i]));
      var values := seq(|order|, i requires 0 <= i < |order| => Entry(keyword, ids[i]));
      var dkeys := seq(|deletes|, i requires 0 <= i < |deletes| => Mark(now, deletes[i]));
      ListImages(now, order, keys, deletes, dkeys);
      server.InsertBatch(keys, values, dkeys);
      forall i | 0 <= i < |order|
        ensures Tag(now, order[i]) in server.entries && server.entries[Tag(now, order[i])] == Entry(keyword, ids[i]) {
        assert keys[i] in keys;
      }
    }
  }

  lemma ListImages(now: Token, order: seq<int>, keys: seq<Tag>, deletes: seq<int>, dkeys: seq<DTag>)
    requires |keys| == |order| && forall i :: 0 <= i < |order| ==> keys[i] == Tag(now, order[i])
    requires |dkeys| == |deletes| && forall i :: 0 <= i < |deletes| ==> dkeys[i] == Mark(now, deletes[i])
    ensures (set x | x in keys) == Tags(now, order)
    ensures (set x | x in dkeys) == Erased(now, deletes)
  {
    forall x ensures x in keys <==> x in Tags(now, order) {
      if x in Tags(now, order) {
        var n :| n in order && x == Tag(now, n);
        var i :| 0 <= i < |order| && order[i] == n;
        assert keys[i] == x;
      }
    }
    forall x ensures x in dkeys <==> x in Erased(now, deletes) {
      if x in Erased(now, deletes) {
        var n :| n in deletes && x == Mark(now, n);
        var i :| 0 <= i < |deletes| && deletes[i] == n;
        assert dkeys[i] == x;
      }
    }
  }

  /** The dictionary after the new entries of one epoch were put in. */
  ghost predicate Rewritten(before: map<Tag, Entry>, after: map<Tag, Entry>, w: string, src: nat, order: seq<int>,
                            ids: seq<int>)
    requires |order| == |ids|
  {
    var now := Token(w, src);
    && after.Keys == before.Keys + Tags(now, order)
    && (forall i :: 0 <= i < |order| ==> Tag(now, order[i]) in after && after[Tag(now, order[i])] == Entry(w, ids[i]))
    && (forall x :: x in before && x !in Tags(now, order) ==> after[x] == before[x])
  }

  lemma RewrittenIsReissued(entries: map<Tag, Entry>, after: map<Tag, Entry>, w: string, src: nat, order: seq<int>,
                            ids: seq<int>)
    requires |order| == |ids| && Present(entries, Token(w, src), order)
    requires forall i :: 0 <= i < |order| ==> entries[Tag(Token(w, src), order[i])] == Entry(w, ids[i])
    requires Rewritten(entries - Tags(Token(w, src), order), after, w, src + 1, order, ids)
    ensures after == (entries - Tags(Token(w, src), order)) + Reissued(entries, Token(w, src), Token(w, src + 1), order)
  {
    var was, now := Token(w, src), Token(w, src + 1);
    var target := (entries - Tags(was, order)) + Reissued(entries, was, now, order);
    forall n | n in order
      ensures Tag(was, n) in entries && Tag(now, n) in after && after[Tag(now, n)] == entries[Tag(was, n)] {
      var i :| 0 <= i < |order| && order[i] == n;
    }
    assert Reissued(entries, was, now, order).Keys == Tags(now, order);
    assert after.Keys == target.Keys;
  }

  lemma LookupKeys(entries: map<Tag, Entry>, token: Token, indexes: seq<int>, result: map<int, Entry>)
    requires Present(entries, token, indexes) && result == Lookup(entries, token, indexes)
    ensures forall x :: x in indexes <==> x in result.Keys
    ensures forall x :: x in indexes ==> Tag(token, x) in entries && result[x] == entries[Tag(token, x)]
  {
    forall x | x in indexes ensures Tag(token, x) in entries {
      var i :| 0 <= i < |indexes| && indexes[i] == x;
    }
  }

  lemma KeyColouring(h: nat, s: State, sp: Spec, w: string)
    requires Invariant(h, s, sp) && w in s.ocnt
    ensures w in sp.ids && w in sp.dead
    ensures Colouring(h, |sp.ids[w]|, sp.dead[w], ClientMarks(s.ostate, w), Marks(s.dstate, Token(w, s.ocnt[w].0)))
    ensures InTree(h, Marks(s.dstate, Token(w, s.ocnt[w].0)))
    ensures EntriesOk(h, s.entries, Token(w, s.ocnt[w].0), sp.ids[w], sp.dead[w])
  {
    hide AllDead, HeightOf, Complete, EntriesOk, PositionsOk, EpochOk, ClientMarks, Marks;
    assert KeyOk(h, s, sp, w);
  }

  /** Every leaf the search reaches has its entry, with the id of its position. */
  lemma EntriesFound(h: nat, s: State, sp: Spec, w: string, indexes: seq<int>)
    requires Invariant(h, s, sp) && w in s.ocnt && w in sp.ids && w in sp.dead
    requires indexes == LiveLeaves(h, sp.dead[w], Pow2(h), Pow2(h) + |sp.ids[w]|)
    ensures Ascending(indexes) && Distinct(indexes) && Present(s.entries, Token(w, s.ocnt[w].0), indexes)
    ensures forall i :: 0 <= i < |indexes| ==>
              && Pow2(h) <= indexes[i] + 1 < Pow2(h) + |sp.ids[w]|
              && s.entries[Tag(Token(w, s.ocnt[w].0), indexes[i])] == Entry(w, sp.ids[w][indexes[i] + 1 - Pow2(h)])
  {
    hide LiveLeaves, Colouring, ClientMarks, Marks, Invariant;
    var token, dead := Token(w, s.ocnt[w].0), sp.dead[w];
    KeyColouring(h, s, sp, w);
    LiveLeavesAscend(h, dead, Pow2(h), Pow2(h) + |sp.ids[w]|);
    forall i | 0 <= i < |indexes| ensures
        && Pow2(h) <= indexes[i] + 1 < Pow2(h) + |sp.ids[w]|
        && Tag(token, indexes[i]) in s.entries
        && s.entries[Tag(token, indexes[i])] == Entry(w, sp.ids[w][indexes[i] + 1 - Pow2(h)]) {
      assert indexes[i] in indexes;
      LiveLeavesMember(h, dead, Pow2(h), Pow2(h) + |sp.ids[w]|, indexes[i]);
      var p := indexes[i] + 1 - Pow2(h);
      assert EntryAt(h, s.entries, token, p, sp.ids[w][p]);
    }
  }

  lemma RootOnlyAtTop(h: nat, i: nat, index: nat)
    requires 1 <= i <= h + 1 && Pow2(i - 1) <= index + 1 < Pow2(i)
    ensures index == 0 <==> i == 1
  {
    if i > 1 { assert Pow2(i - 1) == 2 * Pow2(i - 2); }
  }

  lemma LeafInTree(h: nat, pos: nat)
    requires pos < Pow2(h)
    ensures Pow2(h) <= pos + Pow2(h) < Pow2(h + 1)
  {
  }

  lemma SiblingIndex(n: nat)
    ensures Sibling(n + 1) - 1 == if n % 2 == 0 then n - 1 else n + 1
  {
  }

  lemma MarkInTree(h: nat, pos: nat, marks: set<int>, top: nat, j: int)
    requires pos < Pow2(h) && Picks(h, pos + Pow2(h), marks, top, j)
    ensures j >= 0 ==> Climb(pos + Pow2(h), j) - 1 >= 0
  {
    if j >= 0 { ClimbBounds(h, pos + Pow2(h), j); }
  }

  lemma ColoursAreTwo(h: nat, s: State, sp: Spec)
    requires Invariant(h, s, sp)
    ensures forall key :: key in s.ostate ==> s.ostate[key] == 2
  {
  }

  /** A keyword is known to the client exactly when it was ever inserted. */
  lemma KeyShape(h: nat, s: State, sp: Spec, w: string)
    requires Invariant(h, s, sp)
    ensures w in s.ocnt <==> w in sp.ids
    ensures w in s.ocnt <==> w in sp.dead
    ensures w in s.ocnt ==> s.ocnt[w].1 + 1 == |sp.ids[w]| <= Pow2(h)
  {
    hide Sound, Complete, Mirrors, EntriesOk, PositionsOk, EpochOk, ClientMarks, Marks;
    assert KeyOk(h, s, sp, w);
  }

  lemma KeyPositions(h: nat, s: State, sp: Spec, w: string, id: int)
    requires Invariant(h, s, sp)
    ensures w in sp.ids ==> ((w, id) in s.odel <==> id in sp.ids[w])
    ensures w in sp.ids && id in sp.ids[w] ==> s.odel[(w, id)] == LastIndexOf(sp.ids[w], id) < Pow2(h)
  {
    hide Sound, Complete, Mirrors, EntriesOk, EpochOk, ClientMarks, Marks;
    assert KeyOk(h, s, sp, w);
  }
}

/** The joint state of the QOS client and server, its specification (ids by
    insertion position, removed positions) and the invariant that ties them. */
module QosState {
  import opened Powers
  import opened HeapTree
  import opened Collections
  import opened QosColouring
  import opened QosVisit
  import opened QosCover
  import opened QosServer

  /** Ocnt, Odel and Ostate of the client; I and Dstate of the server. */
  datatype State = State(ocnt: map<string, (nat, int)>, odel: map<(string, int), int>,
                         ostate: map<(string, int), int>,
                         entries: map<Tag, Entry>, dstate: set<DTag>)

  /** Per keyword: the id inserted at each position, and the positions removed. */
  datatype Spec = Spec(ids: map<string, seq<int>>, dead: map<string, set<nat>>)

  // ----- the specification -----

  function LastIndexOf(ids: seq<int>, id: int): (p: nat)
    requires id in ids
    ensures p < |ids| && ids[p] == id && forall j :: p < j < |ids| ==> ids[j] != id
  {
    if ids[|ids| - 1] == id then |ids| - 1
    else
      assert ids == ids[..|ids| - 1] + [ids[|ids| - 1]];
      LastIndexOf(ids[..|ids| - 1], id)
  }

  /** An insertion takes the next position of its keyword. */
  function SpecInsert(sp: Spec, w: string, id: int): Spec {
    if w in sp.ids && w in sp.dead then sp.(ids := sp.ids[w := sp.ids[w] + [id]])
    else Spec(sp.ids[w := [id]], sp.dead[w := {}])
  }

  /** A removal deletes the position at which the id was inserted last. */
  function SpecRemove(sp: Spec, w: string, id: int): Spec
    requires w in sp.ids && w in sp.dead && id in sp.ids[w]
  {
    sp.(dead := sp.dead[w := sp.dead[w] + {LastIndexOf(sp.ids[w], id)}])
  }

  /** A search owes the ids at the positions not removed, in position order. */
  function LiveIds(ids: seq<int>, dead: set<nat>): seq<int> {
    if ids == [] then []
    else
      var n := |ids| - 1;
      if n in dead then LiveIds(ids[..n], dead) else LiveIds(ids[..n], dead) + [ids[n]]
  }

  // ----- the invariant -----

  ghost function ClientMarks(ostate: map<(string, int), int>, w: string): set<int> {
    set key | key in ostate && key.0 == w :: key.1
  }

  lemma InClientMarks(ostate: map<(string, int), int>, w: string, n: int)
    ensures n in ClientMarks(ostate, w) <==> (w, n) in ostate
  {
    if (w, n) in ostate { assert (w, n).0 == w; }
  }

  /** Every live position has its entry in the current search epoch. */
  ghost predicate EntriesOk(h: nat, entries: map<Tag, Entry>, token: Token, ids: seq<int>, dead: set<nat>) {
    forall p :: 0 <= p < |ids| && p !in dead ==> EntryAt(h, entries, token, p, ids[p])
  }

  ghost predicate EntryAt(h: nat, entries: map<Tag, Entry>, token: Token, p: nat, id: int) {
    var key := Tag(token, p + Pow2(h) - 1);
    key in entries && entries[key] == Entry(token.keyword, id)
  }

  ghost predicate PositionsOk(odel: map<(string, int), int>, w: string, ids: seq<int>) {
    && (forall id :: (w, id) in odel <==> id in ids)
    && (forall id :: id in ids ==> odel[(w, id)] == LastIndexOf(ids, id))
  }

  /** No mark of a later search epoch exists. */
  ghost predicate EpochOk(dstate: set<DTag>, w: string, srcCnt: int) {
    forall x :: x in dstate && x.Mark? && x.token.keyword == w ==> x.token.srcCnt <= srcCnt
  }

  ghost predicate KeyKnown(h: nat, s: State, ids: seq<int>, dead: set<nat>, w: string)
    requires w in s.ocnt
  {
    var (src, aw) := s.ocnt[w];
    && |ids| == aw + 1
    && Colouring(h, |ids|, dead, ClientMarks(s.ostate, w), Marks(s.dstate, Token(w, src)))
    && EpochOk(s.dstate, w, src)
    && PositionsOk(s.odel, w, ids)
    && EntriesOk(h, s.entries, Token(w, src), ids, dead)
  }

  ghost predicate KeyUnknown(s: State, w: string) {
    && ClientMarks(s.ostate, w) == {}
    && EpochOk(s.dstate, w, -1)
    && PositionsOk(s.odel, w, [])
  }

  ghost predicate KeyOk(h: nat, s: State, sp: Spec, w: string) {
    if w in s.ocnt then w in sp.ids && w in sp.dead && KeyKnown(h, s, sp.ids[w], sp.dead[w], w)
    else w !in sp.ids && w !in sp.dead && KeyUnknown(s, w)
  }

  ghost predicate Invariant(h: nat, s: State, sp: Spec) {
    && (forall w :: KeyOk(h, s, sp, w))
    && (forall key :: key in s.ostate ==> s.ostate[key] == 2)
  }

  /** The two states agree on everything that concerns keyword w. */
  ghost predicate SameKey(s: State, sp: Spec, s': State, sp': Spec, w: string) {
    && (w in s.ocnt <==> w in s'.ocnt) && (w in s.ocnt ==> s.ocnt[w] == s'.ocnt[w])
    && (w in sp.ids <==> w in sp'.ids) && (w in sp.ids ==> sp.ids[w] == sp'.ids[w])
    && (w in sp.dead <==> w in sp'.dead) && (w in sp.dead ==> sp.dead[w] == sp'.dead[w])
    && ClientMarks(s.ostate, w) == ClientMarks(s'.ostate, w)
    && (forall src :: Marks(s.dstate, Token(w, src)) == Marks(s'.dstate, Token(w, src)))
    && (forall x :: x in s'.dstate && x.Mark? && x.token.keyword == w ==> x in s.dstate)
    && (forall id :: (w, id) in s.odel <==> (w, id) in s'.odel)
    && (forall id :: (w, id) in s.odel ==> s.odel[(w, id)] == s'.odel[(w, id)])
    && (forall x :: x in s.entries && x.token.keyword == w ==> x in s'.entries && s'.entries[x] == s.entries[x])
  }

  lemma SameKeyKeeps(h: nat, s: State, sp: Spec, s': State, sp': Spec, w: string)
    requires KeyOk(h, s, sp, w) && SameKey(s, sp, s', sp', w)
    ensures KeyOk(h, s', sp', w)
  {
    hide Colouring, ClientMarks, Marks, LastIndexOf;
    if w in s.ocnt {
      var (src, aw) := s.ocnt[w];
      forall p | 0 <= p < |sp.ids[w]| && p !in sp.dead[w]
        ensures EntryAt(h, s'.entries, Token(w, src), p, sp.ids[w][p]) {
        assert EntryAt(h, s.entries, Token(w, src), p, sp.ids[w][p]);
      }
    }
  }

  lemma InitialInvariant(h: nat)
    ensures Invariant(h, State(map[], map[], map[], map[], {}), Spec(map[], map[]))
  {
  }

  // ----- insertion -----

  lemma NothingDead(h: nat, m: int)
    ensures !DeadNode(h, {}, m)
  {
    if 1 <= m < Pow2(h + 1) {
      var k := HeightOf(h, m);
      assert Start(k, m + 1) == Start(k, m) + Pow2(k);
      assert !Dead(h, {}, Start(k, m));
    }
  }

  lemma EmptyColouring(h: nat)
    ensures Colouring(h, 0, {}, {}, {})
  {
    hide DeadNode, MarkedUpTo;
    forall m ensures !DeadNode(h, {}, m) { NothingDead(h, m); }
  }

  ghost function Inserted(h: nat, s: State, w: string, id: int): State {
    var (src, aw) := if w in s.ocnt then s.ocnt[w] else (0, -1);
    s.(ocnt := s.ocnt[w := (src, aw + 1)], odel := s.odel[(w, id) := aw + 1],
       entries := s.entries[Tag(Token(w, src), aw + 1 + Pow2(h) - 1) := Entry(w, id)])
  }

  lemma PositionsGrow(odel: map<(string, int), int>, w: string, ids: seq<int>, id: int)
    requires PositionsOk(odel, w, ids)
    ensures PositionsOk(odel[(w, id) := |ids|], w, ids + [id])
  {
    assert (ids + [id])[..|ids|] == ids;
  }

  lemma EntriesGrow(h: nat, entries: map<Tag, Entry>, token: Token, ids: seq<int>, dead: set<nat>, id: int)
    requires EntriesOk(h, entries, token, ids, dead)
    ensures EntriesOk(h, entries[Tag(token, |ids| + Pow2(h) - 1) := Entry(token.keyword, id)], token, ids + [id], dead)
  {
    var entries' := entries[Tag(token, |ids| + Pow2(h) - 1) := Entry(token.keyword, id)];
    forall p | 0 <= p < |ids + [id]| && p !in dead ensures EntryAt(h, entries', token, p, (ids + [id])[p]) {
      if p < |ids| { assert EntryAt(h, entries, token, p, ids[p]); }
    }
  }

  lemma MarksUnknown(h: nat, s: State, w: string)
    requires KeyUnknown(s, w)
    ensures Marks(s.dstate, Token(w, 0)) == {} && EpochOk(s.dstate, w, 0)
  {
    forall n ensures n !in Marks(s.dstate, Token(w, 0)) { InMarks(s.dstate, Token(w, 0), n); }
  }

  lemma ColouringGrows(h: nat, n: nat, dead: set<nat>, client: set<int>, server: set<int>)
    requires Colouring(h, n, dead, client, server) && n + 1 <= Pow2(h)
    ensures Colouring(h, n + 1, dead, client, server)
  {
    hide Sound, Complete, Mirrors;
  }

  lemma InsertKeeps(h: nat, s: State, sp: Spec, w: string, id: int)
    requires Invariant(h, s, sp) && (w in sp.ids ==> |sp.ids[w]| < Pow2(h))
    ensures Invariant(h, Inserted(h, s, w, id), SpecInsert(sp, w, id))
  {
    hide Colouring, ClientMarks, Marks, PositionsOk, EntriesOk, EpochOk, KeyOk;
    var s', sp' := Inserted(h, s, w, id), SpecInsert(sp, w, id);
    forall v ensures KeyOk(h, s', sp', v) {
      assert KeyOk(h, s, sp, v);
      if v == w {
        InsertKeyOk(h, s, sp, w, id);
      } else {
        InsertOther(h, s, sp, w, id, v);
        SameKeyKeeps(h, s, sp, s', sp', v);
      }
    }
  }

  lemma InsertKeyOk(h: nat, s: State, sp: Spec, w: string, id: int)
    requires KeyOk(h, s, sp, w) && (w in sp.ids ==> |sp.ids[w]| < Pow2(h))
    ensures KeyOk(h, Inserted(h, s, w, id), SpecInsert(sp, w, id), w)
  {
    hide Colouring, ClientMarks, Marks, PositionsOk, EntriesOk, EpochOk;
    if w in s.ocnt {
      var (src, aw) := s.ocnt[w];
      ColouringGrows(h, aw + 1, sp.dead[w], ClientMarks(s.ostate, w), Marks(s.dstate, Token(w, src)));
      PositionsGrow(s.odel, w, sp.ids[w], id);
      EntriesGrow(h, s.entries, Token(w, src), sp.ids[w], sp.dead[w], id);
    } else {
      MarksUnknown(h, s, w);
      EmptyColouring(h);
      ColouringGrows(h, 0, {}, {}, {});
      PositionsGrow(s.odel, w, [], id);
      NoEntries(h, s.entries, Token(w, 0));
      EntriesGrow(h, s.entries, Token(w, 0), [], {}, id);
      assert [] + [id] == [id];
    }
  }

  lemma NoEntries(h: nat, entries: map<Tag, Entry>, token: Token)
    ensures EntriesOk(h, entries, token, [], {})
  {
  }

  lemma InsertOther(h: nat, s: State, sp: Spec, w: string, id: int, v: string)
    requires v != w
    ensures SameKey(s, sp, Inserted(h, s, w, id), SpecInsert(sp, w, id), v)
  {
    hide ClientMarks, Marks;
  }

  // ----- removal -----

  /** The node picked at height j on the path to leaf q is marked on both sides;
      when nothing is picked the server gets a dummy. */
  ghost function Removed(s: State, w: string, src: nat, q: nat, j: int, nonce: int): State {
    if j < 0 then s.(dstate := s.dstate + {Dummy(nonce)})
    else
      var n := Climb(q, j) - 1;
      s.(ostate := s.ostate[(w, n) := 2], dstate := s.dstate + {Mark(Token(w, src), n)})
  }

  lemma RemovedMarks(s: State, w: string, src: nat, q: nat, j: int, nonce: int)
    ensures var s' := Removed(s, w, src, q, j, nonce);
            && ClientMarks(s'.ostate, w) == ClientMarks(s.ostate, w) + Picked(q, j)
            && Marks(s'.dstate, Token(w, src)) == Marks(s.dstate, Token(w, src)) + Picked(q, j)
  {
    RemovedClientMarks(s, w, src, q, j, nonce);
    RemovedServerMarks(s, w, src, q, j, nonce);
  }

  lemma RemovedClientMarks(s: State, w: string, src: nat, q: nat, j: int, nonce: int)
    ensures ClientMarks(Removed(s, w, src, q, j, nonce).ostate, w) == ClientMarks(s.ostate, w) + Picked(q, j)
  {
    hide ClientMarks, Climb;
    var s' := Removed(s, w, src, q, j, nonce);
    forall n ensures n in ClientMarks(s'.ostate, w) <==> n in ClientMarks(s.ostate, w) + Picked(q, j) {
      InClientMarks(s'.ostate, w, n);
      InClientMarks(s.ostate, w, n);
    }
  }

  lemma RemovedServerMarks(s: State, w: string, src: nat, q: nat, j: int, nonce: int)
    ensures Marks(Removed(s, w, src, q, j, nonce).dstate, Token(w, src)) ==
            Marks(s.dstate, Token(w, src)) + Picked(q, j)
  {
    hide Marks, Climb;
    var s' := Removed(s, w, src, q, j, nonce);
    forall n ensures n in Marks(s'.dstate, Token(w, src)) <==> n in Marks(s.dstate, Token(w, src)) + Picked(q, j) {
      InMarks(s'.dstate, Token(w, src), n);
      InMarks(s.dstate, Token(w, src), n);
    }
  }

  /** A remove touches marks of its own keyword only. */
  lemma RemovedParts(s: State, w: string, src: nat, q: nat, j: int, nonce: int, v: string)
    requires v != w
    ensures var s' := Removed(s, w, src, q, j, nonce);
            && s'.ocnt == s.ocnt && s'.odel == s.odel && s'.entries == s.entries
            && (forall n :: (v, n) in s.ostate <==> (v, n) in s'.ostate)
            && (forall x :: x in s.dstate ==> x in s'.dstate)
            && (forall x :: x in s'.dstate && x.Mark? && x.token.keyword == v ==> x in s.dstate)
  {
    hide Climb;
  }

  lemma RemovedOther(s: State, sp: Spec, w: string, src: nat, q: nat, j: int, nonce: int, sp': Spec, v: string)
    requires v != w && sp'.ids == sp.ids && (v in sp.dead <==> v in sp'.dead)
    requires (v in sp.dead ==> sp.dead[v] == sp'.dead[v])
    ensures SameKey(s, sp, Removed(s, w, src, q, j, nonce), sp', v)
  {
    hide Removed, ClientMarks, Marks;
    var s' := Removed(s, w, src, q, j, nonce);
    RemovedParts(s, w, src, q, j, nonce, v);
    SameClientMarks(s.ostate, s'.ostate, v);
    forall t: nat ensures Marks(s'.dstate, Token(v, t)) == Marks(s.dstate, Token(v, t)) {
      SameMarks(s.dstate, s'.dstate, Token(v, t));
    }
  }

  lemma SameClientMarks(o: map<(string, int), int>, o': map<(string, int), int>, v: string)
    requires forall n :: (v, n) in o <==> (v, n) in o'
    ensures ClientMarks(o, v) == ClientMarks(o', v)
  {
    forall n ensures n in ClientMarks(o', v) <==> n in ClientMarks(o, v) {
      InClientMarks(o', v, n);
      InClientMarks(o, v, n);
    }
  }

  lemma SameMarks(d: set<DTag>, d': set<DTag>, token: Token)
    requires forall n :: Mark(token, n) in d <==> Mark(token, n) in d'
    ensures Marks(d, token) == Marks(d', token)
  {
    forall n ensures n in Marks(d', token) <==> n in Marks(d, token) {
      InMarks(d', token, n);
      InMarks(d, token, n);
    }
  }

  lemma RemoveColouring(h: nat, n: nat, dead: set<nat>, client: set<int>, server: set<int>, p: nat, top: nat, j: int)
    requires Colouring(h, n, dead, client, server) && p < n && Picks(h, p + Pow2(h), client, top, j)
    ensures var picked := Picked(p + Pow2(h), j);
            Colouring(h, n, dead + {p}, client + picked, server + picked)
  {
    hide Sound, Complete, Mirrors, Picks, Picked;
    RemoveKeepsSound(h, dead, p, client, top, j);
    RemoveKeepsComplete(h, dead, p, client, top, j);
    RemoveKeepsMirror(server, client, Picked(p + Pow2(h), j));
  }

  lemma RemoveKeyOk(h: nat, s: State, sp: Spec, w: string, id: int, top: nat, j: int, nonce: int)
    requires w in s.ocnt && KeyOk(h, s, sp, w) && id in sp.ids[w]
    requires Picks(h, LastIndexOf(sp.ids[w], id) + Pow2(h), ClientMarks(s.ostate, w), top, j)
    ensures var q := LastIndexOf(sp.ids[w], id) + Pow2(h);
            KeyOk(h, Removed(s, w, s.ocnt[w].0, q, j, nonce), SpecRemove(sp, w, id), w)
  {
    hide Colouring, ClientMarks, Marks, Picks, Picked, LastIndexOf, Climb;
    var (src, aw) := s.ocnt[w];
    var p := LastIndexOf(sp.ids[w], id);
    RemovedMarks(s, w, src, p + Pow2(h), j, nonce);
    RemoveColouring(h, aw + 1, sp.dead[w], ClientMarks(s.ostate, w), Marks(s.dstate, Token(w, src)), p, top, j);
  }

  lemma RemoveKeeps(h: nat, s: State, sp: Spec, w: string, id: int, top: nat, j: int, nonce: int)
    requires Invariant(h, s, sp) && w in s.ocnt && w in sp.ids && w in sp.dead && id in sp.ids[w]
    requires Picks(h, LastIndexOf(sp.ids[w], id) + Pow2(h), ClientMarks(s.ostate, w), top, j)
    ensures var q := LastIndexOf(sp.ids[w], id) + Pow2(h);
            Invariant(h, Removed(s, w, s.ocnt[w].0, q, j, nonce), SpecRemove(sp, w, id))
  {
    hide KeyOk, SameKey, Picks, Picked, LastIndexOf, ClientMarks, Climb;
    var q := LastIndexOf(sp.ids[w], id) + Pow2(h);
    var s', sp' := Removed(s, w, s.ocnt[w].0, q, j, nonce), SpecRemove(sp, w, id);
    forall v ensures KeyOk(h, s', sp', v) {
      assert KeyOk(h, s, sp, v);
      if v == w {
        RemoveKeyOk(h, s, sp, w, id, top, j, nonce);
      } else {
        RemovedOther(s, sp, w, s.ocnt[w].0, q, j, nonce, sp', v);
        SameKeyKeeps(h, s, sp, s', sp', v);
      }
    }
  }

  // ----- search -----

  lemma {:induction false} RowAdjacent(h: nat, cover: seq<nat>, lo: nat, hi: nat, i: nat)
    requires Row(h, cover, lo, hi) && i < |cover|
    requires TreeNodes(h, cover)
    ensures First(h, cover[i]) == if i == 0 then lo else End(h, cover[i - 1])
    ensures i == |cover| - 1 ==> End(h, cover[i]) == hi
    decreases i, |cover|
  {
    hide First, End;
    if i > 0 { RowAdjacent(h, cover[1..], End(h, cover[0]), hi, i - 1); }
  }

  /** What the search finds over the first i members of the cover. */
  lemma {:induction false} FoundRow(h: nat, n: nat, dead: set<nat>, client: set<int>, server: set<int>, cover: seq<nat>,
                                    i: nat)
    requires Colouring(h, n, dead, client, server) && cover == CoverFrom(Pow2(h), Pow2(h) + n) && i <= |cover|
    requires Row(h, cover, Pow2(h), Pow2(h) + n)
    requires TreeNodes(h, cover)
    ensures FoundAll(h, cover[..i], server) ==
            LiveLeaves(h, dead, Pow2(h), if i == 0 then Pow2(h) else End(h, cover[i - 1]))
    ensures CallsAll(h, cover[..i], server) <= i + 2 * (|FoundAll(h, cover[..i], server)| * h)
  {
    hide Colouring, Row, CoverFrom, Found, Calls, LiveLeaves, HeightOf, CompleteBelow, Sound, Start, Pow2;
    if i == 0 {
      NoLeaves(h, dead, Pow2(h));
    } else {
      FoundRow(h, n, dead, client, server, cover, i - 1);
      var c := cover[i - 1];
      CoverComplete(h, n, dead, client, server, i - 1);
      FoundIsLive(h, dead, server, c, HeightOf(h, c));
      CallsBounded(h, dead, server, c, HeightOf(h, c));
      RowAdjacent(h, cover, Pow2(h), Pow2(h) + n, i - 1);
      RowBounds(h, cover, Pow2(h), Pow2(h) + n, i - 1);
      if i >= 2 { RowBounds(h, cover, Pow2(h), Pow2(h) + n, i - 2); }
      LiveJoins(h, dead, Pow2(h), First(h, c), End(h, c));
      assert cover[..i][..i - 1] == cover[..i - 1];
      CallsSumRow(|FoundAll(h, cover[..i - 1], server)|, |Found(c, HeightOf(h, c), server)|, HeightOf(h, c), h);
    }
  }

  lemma NoLeaves(h: nat, dead: set<nat>, lo: nat)
    ensures LiveLeaves(h, dead, lo, lo) == []
  {
  }

  lemma CallsSumRow(a: nat, b: nat, k: nat, h: nat)
    requires k <= h
    ensures 2 * (a * h) + 1 + 2 * (b * k) <= 1 + 2 * ((a + b) * h)
  {
    assert (a + b) * h == a * h + b * h;
    assert b * k <= b * h;
  }

  /** One search: it finds exactly the live leaves, its calls are bounded by
      what it finds, and what it hits is enough to mirror the client's marks. */
  lemma SearchFinds(h: nat, n: nat, dead: set<nat>, client: set<int>, server: set<int>)
    requires Colouring(h, n, dead, client, server)
    requires TreeNodes(h, CoverFrom(Pow2(h), Pow2(h) + n))
    ensures var cover := CoverFrom(Pow2(h), Pow2(h) + n);
            && FoundAll(h, cover, server) == LiveLeaves(h, dead, Pow2(h), Pow2(h) + n)
            && CallsAll(h, cover, server) <= |cover| + 2 * (|FoundAll(h, cover, server)| * h)
            && Mirrors(Elements(HitsAll(h, cover, server)), client)
  {
    hide Colouring, CoverFrom, CoverReady, LiveLeaves, Row, FoundAll, CallsAll, HitsAll;
    var cover := CoverFrom(Pow2(h), Pow2(h) + n);
    ColouringBound(h, n, dead, client, server);
    CoverStarts(h, n);
    CoverIsRow(h, Pow2(h), Pow2(h) + n);
    FoundRow(h, n, dead, client, server, cover, |cover|);
    assert cover[..|cover|] == cover;
    if cover == [] {
      RowEmpty(h, Pow2(h), Pow2(h) + n);
    } else {
      RowAdjacent(h, cover, Pow2(h), Pow2(h) + n, |cover| - 1);
    }
    HitsMirror(h, n, dead, client, server);
  }

  lemma RowEmpty(h: nat, lo: nat, hi: nat)
    requires Row(h, [], lo, hi)
    ensures lo == hi
  {
  }

  lemma ColouringBound(h: nat, n: nat, dead: set<nat>, client: set<int>, server: set<int>)
    requires Colouring(h, n, dead, client, server)
    ensures n <= Pow2(h) && server <= client
  {
  }

  lemma HitsMirror(h: nat, n: nat, dead: set<nat>, client: set<int>, server: set<int>)
    requires Colouring(h, n, dead, client, server)
    requires TreeNodes(h, CoverFrom(Pow2(h), Pow2(h) + n))
    ensures Mirrors(Elements(HitsAll(h, CoverFrom(Pow2(h), Pow2(h) + n), server)), client)
  {
    hide Colouring, CoverFrom, HitsAll, Topmost, Hits;
    var cover := CoverFrom(Pow2(h), Pow2(h) + n);
    var hits := Elements(HitsAll(h, cover, server));
    ColouringBound(h, n, dead, client, server);
    forall t | t in hits ensures t in client {
      var j := HitsAllWithin(h, cover, server, t);
    }
    forall t | Topmost(t, client) ensures t in hits {
      var i := CoverHits(h, n, dead, client, server, t);
      HitsAllHas(h, cover, server, i, t);
    }
  }

  /** The server after a search and the client's clean-up: what was found and
      hit moves from the old epoch to the next one. */
  ghost function Searched(s: State, w: string, indexes: seq<int>, deletes: seq<int>): State
    requires w in s.ocnt
  {
    var (src, aw) := s.ocnt[w];
    var was, now := Token(w, src), Token(w, src + 1);
    s.(ocnt := s.ocnt[w := (src + 1, aw)],
       entries := (s.entries - Tags(was, indexes)) + Reissued(s.entries, was, now, indexes),
       dstate := (s.dstate - Erased(was, deletes)) + Erased(now, deletes))
  }

  /** The entries found, under the next epoch. */
  ghost function Reissued(entries: map<Tag, Entry>, was: Token, now: Token, indexes: seq<int>): map<Tag, Entry> {
    map n | n in indexes && Tag(was, n) in entries :: Tag(now, n) := entries[Tag(was, n)]
  }

  lemma {:induction false} LiveLeavesMember(h: nat, dead: set<nat>, lo: nat, hi: nat, x: int)
    ensures x in LiveLeaves(h, dead, lo, hi) <==> lo <= x + 1 < hi && !Dead(h, dead, x + 1)
    decreases hi
  {
    if lo < hi { LiveLeavesMember(h, dead, lo, hi - 1, x); }
  }

  lemma {:induction false} LiveLeavesAscend(h: nat, dead: set<nat>, lo: nat, hi: nat)
    ensures Ascending(LiveLeaves(h, dead, lo, hi))
    decreases hi
  {
    if lo < hi {
      LiveLeavesAscend(h, dead, lo, hi - 1);
      var init := LiveLeaves(h, dead, lo, hi - 1);
      forall i | 0 <= i < |init| ensures init[i] < hi - 2 {
        LiveLeavesMember(h, dead, lo, hi - 1, init[i]);
      }
    }
  }

  lemma ReissuedOk(h: nat, entries: map<Tag, Entry>, w: string, src: nat, ids: seq<int>, dead: set<nat>)
    requires EntriesOk(h, entries, Token(w, src), ids, dead)
    ensures var indexes := LiveLeaves(h, dead, Pow2(h), Pow2(h) + |ids|);
            var was, now := Token(w, src), Token(w, src + 1);
            EntriesOk(h, (entries - Tags(was, indexes)) + Reissued(entries, was, now, indexes), now, ids, dead)
  {
    hide LiveLeaves;
    var indexes := LiveLeaves(h, dead, Pow2(h), Pow2(h) + |ids|);
    var was, now := Token(w, src), Token(w, src + 1);
    var after := (entries - Tags(was, indexes)) + Reissued(entries, was, now, indexes);
    forall p | 0 <= p < |ids| && p !in dead ensures EntryAt(h, after, now, p, ids[p]) {
      var n := p + Pow2(h) - 1;
      LiveLeavesMember(h, dead, Pow2(h), Pow2(h) + |ids|, n);
      assert EntryAt(h, entries, was, p, ids[p]);
      assert Tag(now, n) in Reissued(entries, was, now, indexes);
    }
  }

  lemma SearchedMarks(s: State, w: string, indexes: seq<int>, deletes: seq<int>)
    requires w in s.ocnt && EpochOk(s.dstate, w, s.ocnt[w].0)
    ensures Marks(Searched(s, w, indexes, deletes).dstate, Token(w, s.ocnt[w].0 + 1)) == Elements(deletes)
  {
    var s', now := Searched(s, w, indexes, deletes), Token(w, s.ocnt[w].0 + 1);
    forall n ensures n in Marks(s'.dstate, now) <==> n in Elements(deletes) {
      InMarks(s'.dstate, now, n);
    }
  }

  lemma SearchedOther(s: State, sp: Spec, w: string, indexes: seq<int>, deletes: seq<int>, v: string)
    requires w in s.ocnt && v != w
    ensures SameKey(s, sp, Searched(s, w, indexes, deletes), sp, v)
  {
    hide ClientMarks, Marks, Tags, Reissued, Erased;
    var s' := Searched(s, w, indexes, deletes);
    var was, now := Token(w, s.ocnt[w].0), Token(w, s.ocnt[w].0 + 1);
    EntriesOther(s.entries, was, now, indexes, v);
    ErasedOther(was, deletes, v);
    ErasedOther(now, deletes, v);
    forall t: nat ensures Marks(s'.dstate, Token(v, t)) == Marks(s.dstate, Token(v, t)) {
      SameMarks(s.dstate, s'.dstate, Token(v, t));
    }
  }

  lemma ErasedOther(token: Token, nodes: seq<int>, v: string)
    requires token.keyword != v
    ensures forall x :: x in Erased(token, nodes) ==> x.Mark? && x.token.keyword != v
  {
  }

  lemma EntriesOther(entries: map<Tag, Entry>, was: Token, now: Token, indexes: seq<int>, v: string)
    requires was.keyword != v && now.keyword != v
    ensures var after := (entries - Tags(was, indexes)) + Reissued(entries, was, now, indexes);
            forall x :: x in entries && x.token.keyword == v ==> x in after && after[x] == entries[x]
  {
  }

  lemma ColouringRenewed(h: nat, n: nat, dead: set<nat>, client: set<int>, server: set<int>, server': set<int>)
    requires Colouring(h, n, dead, client, server) && Mirrors(server', client)
    ensures Colouring(h, n, dead, client, server')
  {
    hide Sound, Complete;
  }

  /** The rebuild after a search keeps the invariant for every keyword. */
  lemma SearchKeeps(h: nat, s: State, sp: Spec, w: string, indexes: seq<int>, deletes: seq<int>)
    requires Invariant(h, s, sp) && w in s.ocnt && w in sp.ids && w in sp.dead
    requires indexes == LiveLeaves(h, sp.dead[w], Pow2(h), Pow2(h) + |sp.ids[w]|)
    requires Mirrors(Elements(deletes), ClientMarks(s.ostate, w))
    ensures Invariant(h, Searched(s, w, indexes, deletes), sp)
  {
    hide KeyOk, SameKey, LiveLeaves, ClientMarks;
    var s' := Searched(s, w, indexes, deletes);
    forall v ensures KeyOk(h, s', sp, v) {
      assert KeyOk(h, s, sp, v);
      if v == w {
        SearchKeyOk(h, s, sp, w, indexes, deletes);
      } else {
        SearchedOther(s, sp, w, indexes, deletes, v);
        SameKeyKeeps(h, s, sp, s', sp, v);
      }
    }
  }

  lemma SearchKeyOk(h: nat, s: State, sp: Spec, w: string, indexes: seq<int>, deletes: seq<int>)
    requires KeyOk(h, s, sp, w) && w in s.ocnt && w in sp.ids && w in sp.dead
    requires indexes == LiveLeaves(h, sp.dead[w], Pow2(h), Pow2(h) + |sp.ids[w]|)
    requires Mirrors(Elements(deletes), ClientMarks(s.ostate, w))
    ensures KeyOk(h, Searched(s, w, indexes, deletes), sp, w)
  {
    hide Colouring, ClientMarks, Marks, PositionsOk, EntriesOk, Mirrors, LiveLeaves;
    var (src, aw) := s.ocnt[w];
    var s' := Searched(s, w, indexes, deletes);
    SearchedMarks(s, w, indexes, deletes);
    ColouringRenewed(h, aw + 1, sp.dead[w], ClientMarks(s.ostate, w), Marks(s.dstate, Token(w, src)),
                     Elements(deletes));
    ReissuedOk(h, s.entries, w, src, sp.ids[w], sp.dead[w]);
  }

  // ----- the answer -----

  /** The live leaves, read as positions, give the ids the specification owes. */
  lemma {:induction false} AnswerIsLiveIds(h: nat, ids: seq<int>, dead: set<nat>, answer: seq<int>)
    requires var leaves := LiveLeaves(h, dead, Pow2(h), Pow2(h) + |ids|);
             |answer| == |leaves| && forall i :: 0 <= i < |leaves| ==> ReadAt(Pow2(h), ids, leaves[i], answer[i])
    ensures answer == LiveIds(ids, dead)
    decreases |ids|
  {
    hide *;
    var p, n := Pow2(h), |ids| - 1;
    var leaves := LiveLeaves(h, dead, p, p + |ids|);
    LiveLeavesLast(h, dead, p, |ids|);
    LiveIdsLast(ids, dead);
    if ids != [] {
      DeadAt(h, dead, n);
      var init := LiveLeaves(h, dead, p, p + n);
      LiveLeavesRange(h, dead, n);
      forall i | 0 <= i < |init| ensures ReadAt(p, ids[..n], init[i], answer[..|init|][i]) {
        assert leaves[i] == init[i];
        ReadEarlier(p, ids, n, init[i], answer[i]);
      }
      AnswerIsLiveIds(h, ids[..n], dead, answer[..|init|]);
      if n in dead {
        assert answer == answer[..|init|];
      } else {
        assert leaves[|init|] == p + n - 1;
        ReadLast(p, ids, answer[|init|]);
        assert answer == answer[..|init|] + [ids[n]];
      }
    }
  }

  /** The id found at a leaf is the one inserted at its position. */
  ghost predicate ReadAt(p: nat, ids: seq<int>, leaf: int, id: int) {
    p <= leaf + 1 < p + |ids| && id == ids[leaf + 1 - p]
  }

  lemma ReadEarlier(p: nat, ids: seq<int>, n: nat, leaf: int, id: int)
    requires ReadAt(p, ids, leaf, id) && n <= |ids| && leaf + 1 < p + n
    ensures ReadAt(p, ids[..n], leaf, id)
  {
  }

  lemma ReadLast(p: nat, ids: seq<int>, id: int)
    requires ids != [] && ReadAt(p, ids, p + |ids| - 2, id)
    ensures id == ids[|ids| - 1]
  {
  }

  lemma LiveIdsLast(ids: seq<int>, dead: set<nat>)
    ensures ids == [] ==> LiveIds(ids, dead) == []
    ensures ids != [] ==>
      var n := |ids| - 1;
      LiveIds(ids, dead) == if n in dead then LiveIds(ids[..n], dead) else LiveIds(ids[..n], dead) + [ids[n]]
  {
  }

  lemma LiveLeavesRange(h: nat, dead: set<nat>, n: nat)
    ensures var s := LiveLeaves(h, dead, Pow2(h), Pow2(h) + n);
            forall i :: 0 <= i < |s| ==> Pow2(h) <= s[i] + 1 < Pow2(h) + n
  {
    hide *;
    var s := LiveLeaves(h, dead, Pow2(h), Pow2(h) + n);
    forall i | 0 <= i < |s| ensures Pow2(h) <= s[i] + 1 < Pow2(h) + n {
      assert s[i] in s;
      LiveLeavesMember(h, dead, Pow2(h), Pow2(h) + n, s[i]);
    }
  }

  lemma LiveLeavesLast(h: nat, dead: set<nat>, lo: nat, n: nat)
    ensures n == 0 ==> LiveLeaves(h, dead, lo, lo + n) == []
    ensures n > 0 ==>
      var init := LiveLeaves(h, dead, lo, lo + n - 1);
      LiveLeaves(h, dead, lo, lo + n) == if Dead(h, dead, lo + n - 1) then init else init + [lo + n - 2]
  {
    hide Dead;
  }

  lemma DeadAt(h: nat, dead: set<nat>, n: nat)
    ensures Dead(h, dead, Pow2(h) + n) <==> n in dead
  {
  }
}

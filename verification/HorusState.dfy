/** The three stores of Horus, what they represent (the live ids of a keyword,
    slot by slot, with the access counter of every slot ever used) and the
    invariant that ties them. */
module HorusState {
  import opened Collections
  import opened Bids
  import opened HorusProbe

  datatype UKey = ById(keyword: string, ind: int) | BySlot(keyword: string, slot: int)

  /** "updt_cnt#acc_cnt" under an id, "ind#acc_cnt" under a slot. */
  datatype Pair = Pair(first: int, acc: int)

  /** OMAP_updt, the five counters of CNTs, and the boxes of ORAM_srch. */
  datatype State = State(updt: map<UKey, Pair>, updtCnt: map<string, int>, srchCnt: map<string, int>,
                         access: map<string, int>, lastInd: map<string, int>, latest: map<string, int>,
                         boxes: map<Bid, Value>)

  /** One keyword: the live ids by slot, the access counter of every slot ever
      used, and the ids ever inserted. */
  datatype Slots = Slots(ids: seq<int>, acc: seq<int>, ever: set<int>)

  type Spec = map<string, Slots>

  // ----- the specification -----

  function SlotsOf(sp: Spec, w: string): Slots {
    if w in sp then sp[w] else Slots([], [], {})
  }

  /** Insertion of an id that is not live takes the next slot. */
  function SpecInsert(sp: Spec, w: string, ind: int): Spec {
    var k := SlotsOf(sp, w);
    if ind in k.ids then sp
    else
      var n := |k.ids|;
      var acc := if n < |k.acc| then k.acc[n := k.acc[n] + 1] else k.acc + [1];
      sp[w := Slots(k.ids + [ind], acc, k.ever + {ind})]
  }

  function IndexOf(ids: seq<int>, ind: int): (i: nat)
    requires ind in ids
    ensures i < |ids| && ids[i] == ind
  {
    if ids[0] == ind then 0 else 1 + IndexOf(ids[1..], ind)
  }

  /** Removal of a live id moves the id of the last slot into its slot. */
  function SpecRemove(sp: Spec, w: string, ind: int): Spec {
    var k := SlotsOf(sp, w);
    if ind !in k.ids then sp
    else
      var n, i := |k.ids|, IndexOf(k.ids, ind);
      if i == n - 1 || n > |k.acc| then sp[w := k.(ids := k.ids[..n - 1])]
      else sp[w := k.(ids := k.ids[i := k.ids[n - 1]][..n - 1], acc := k.acc[i := k.acc[i] + 1])]
  }

  // ----- the invariant -----

  /** The boxes of one slot in one search epoch, by access counter. */
  ghost function Cells(boxes: map<Bid, Value>, w: string, slot: int, src: int): int -> Value {
    a => if Full(slot, src, a, w) in boxes then boxes[Full(slot, src, a, w)] else Nothing
  }

  ghost predicate SlotRow(updt: map<UKey, Pair>, w: string, k: Slots, access: int, i: nat)
    requires i < |k.acc|
  {
    && BySlot(w, i + 1) in updt && updt[BySlot(w, i + 1)].acc == k.acc[i] && 1 <= k.acc[i] <= access
    && (i < |k.ids| ==>
          && updt[BySlot(w, i + 1)].first == k.ids[i]
          && ById(w, k.ids[i]) in updt && updt[ById(w, k.ids[i])] == Pair(i + 1, k.acc[i]))
  }

  /** Slot entries and id entries are inverse to each other. */
  ghost predicate TablesOk(updt: map<UKey, Pair>, w: string, k: Slots, access: int) {
    && |k.ids| <= |k.acc| && Distinct(k.ids) && access >= 1
    && (forall i :: 0 <= i < |k.acc| ==> SlotRow(updt, w, k, access, i))
    && (forall s :: s > |k.acc| ==> BySlot(w, s) !in updt)
    && (forall ind :: ById(w, ind) in updt <==> ind in k.ever)
    && (forall ind :: ind in k.ids ==> ind in k.ever)
    && (forall ind :: ind in k.ever && ind !in k.ids ==> updt[ById(w, ind)].first == -1)
  }

  ghost predicate SlotBoxes(boxes: map<Bid, Value>, w: string, src: int, k: Slots, i: nat)
    requires i < |k.acc|
  {
    var g := Cells(boxes, w, i + 1, src);
    Ranged(g, k.acc[i]) && (i < |k.ids| ==> g(k.acc[i]) == Ind(k.ids[i]))
  }

  /** In the current epoch the slots up to latest have one contiguous range of
      boxes each; no other slot and no later epoch has any. */
  ghost predicate BoxesOk(boxes: map<Bid, Value>, w: string, src: int, latest: int, k: Slots) {
    && |k.ids| <= latest <= |k.acc|
    && (forall i :: 0 <= i < latest ==> SlotBoxes(boxes, w, src, k, i))
    && (forall s, a :: s > latest ==> Full(s, src, a, w) !in boxes)
    && (forall s, t, a :: t > src ==> Full(s, t, a, w) !in boxes)
  }

  ghost predicate Known(s: State, w: string, k: Slots) {
    && w in s.updtCnt && w in s.srchCnt && w in s.access && w in s.latest
    && s.updtCnt[w] == |k.ids| && s.srchCnt[w] >= 0
    && (k.ids != [] ==> w in s.lastInd && s.lastInd[w] == k.ids[|k.ids| - 1])
    && TablesOk(s.updt, w, k, s.access[w])
    && BoxesOk(s.boxes, w, s.srchCnt[w], s.latest[w], k)
  }

  ghost predicate Unknown(s: State, w: string) {
    && w !in s.updtCnt && w !in s.srchCnt && w !in s.latest && w !in s.access
    && (forall x :: x in s.updt ==> x.keyword != w)
    && (forall x :: x in s.boxes ==> x.Full? && x.keyword != w)
  }

  ghost predicate KeyOk(s: State, sp: Spec, w: string) {
    if w in sp then Known(s, w, sp[w]) else Unknown(s, w)
  }

  ghost predicate Invariant(s: State, sp: Spec) {
    && (forall w :: KeyOk(s, sp, w))
    && (forall x :: x in s.boxes ==> x.Full? && x.slot >= 1)
  }

  ghost predicate SameKey(s: State, sp: Spec, s': State, sp': Spec, w: string) {
    && (w in sp <==> w in sp') && (w in sp ==> sp[w] == sp'[w])
    && (w in s.updtCnt <==> w in s'.updtCnt) && (w in s.updtCnt ==> s.updtCnt[w] == s'.updtCnt[w])
    && (w in s.srchCnt <==> w in s'.srchCnt) && (w in s.srchCnt ==> s.srchCnt[w] == s'.srchCnt[w])
    && (w in s.access <==> w in s'.access) && (w in s.access ==> s.access[w] == s'.access[w])
    && (w in s.lastInd <==> w in s'.lastInd) && (w in s.lastInd ==> s.lastInd[w] == s'.lastInd[w])
    && (w in s.latest <==> w in s'.latest) && (w in s.latest ==> s.latest[w] == s'.latest[w])
    && (forall x: UKey :: x.keyword == w ==> (x in s.updt <==> x in s'.updt))
    && (forall x: UKey :: x.keyword == w && x in s.updt ==> s.updt[x] == s'.updt[x])
    && (forall x: Bid :: x.Full? && x.keyword == w ==> (x in s.boxes <==> x in s'.boxes))
    && (forall x: Bid :: x.Full? && x.keyword == w && x in s.boxes ==> s.boxes[x] == s'.boxes[x])
  }

  lemma SameCells(b: map<Bid, Value>, b': map<Bid, Value>, w: string, slot: int, src: int, top: int)
    requires forall a :: Cells(b, w, slot, src)(a) == Cells(b', w, slot, src)(a)
    ensures Ranged(Cells(b, w, slot, src), top) <==> Ranged(Cells(b', w, slot, src), top)
  {
  }

  lemma SameBoxes(b: map<Bid, Value>, b': map<Bid, Value>, w: string, src: int, latest: int, k: Slots)
    requires BoxesOk(b, w, src, latest, k)
    requires forall x: Bid :: x.Full? && x.keyword == w ==> (x in b <==> x in b')
    requires forall x: Bid :: x.Full? && x.keyword == w && x in b ==> b[x] == b'[x]
    ensures BoxesOk(b', w, src, latest, k)
  {
    hide Ranged;
    forall i | 0 <= i < latest ensures SlotBoxes(b', w, src, k, i) {
      assert SlotBoxes(b, w, src, k, i);
      SameCells(b, b', w, i + 1, src, k.acc[i]);
    }
  }

  lemma SameTables(u: map<UKey, Pair>, u': map<UKey, Pair>, w: string, k: Slots, access: int)
    requires TablesOk(u, w, k, access)
    requires forall x: UKey :: x.keyword == w ==> (x in u <==> x in u')
    requires forall x: UKey :: x.keyword == w && x in u ==> u[x] == u'[x]
    ensures TablesOk(u', w, k, access)
  {
    forall i | 0 <= i < |k.acc| ensures SlotRow(u', w, k, access, i) {
      assert SlotRow(u, w, k, access, i);
    }
  }

  lemma SameKeyKeeps(s: State, sp: Spec, s': State, sp': Spec, w: string)
    requires KeyOk(s, sp, w) && SameKey(s, sp, s', sp', w)
    requires forall x :: x in s'.boxes ==> x.Full?
    ensures KeyOk(s', sp', w)
  {
    hide TablesOk, BoxesOk;
    if w in sp {
      SameTables(s.updt, s'.updt, w, sp[w], s.access[w]);
      SameBoxes(s.boxes, s'.boxes, w, s.srchCnt[w], s.latest[w], sp[w]);
    }
  }

  lemma InitialInvariant()
    ensures Invariant(State(map[], map[], map[], map[], map[], map[], map[]), map[])
  {
  }

  // ----- insertion -----

  function CountOr(m: map<string, int>, w: string, otherwise: int): int {
    if w in m then m[w] else otherwise
  }

  /** The access counter of the next box of a slot. */
  function NextAcc(updt: map<UKey, Pair>, w: string, slot: int): int {
    if BySlot(w, slot) in updt then updt[BySlot(w, slot)].acc + 1 else 1
  }

  function Larger(a: int, b: int): int {
    if a > b then a else b
  }

  function NextLatest(last: int, slot: int): int {
    if last < slot then last + 1 else last
  }

  ghost function Inserted(s: State, w: string, ind: int): State {
    var slot := CountOr(s.updtCnt, w, 0) + 1;
    var src, last := CountOr(s.srchCnt, w, 0), CountOr(s.latest, w, 0);
    var acc := NextAcc(s.updt, w, slot);
    State(s.updt[ById(w, ind) := Pair(slot, acc)][BySlot(w, slot) := Pair(ind, acc)],
          s.updtCnt[w := slot], s.srchCnt[w := src],
          s.access[w := Larger(acc, CountOr(s.access, w, 1))],
          s.lastInd[w := ind],
          s.latest[w := last][w := NextLatest(last, slot)],
          Pushed(s.boxes, w, slot, src, acc, ind, last < slot))
  }

  // ----- boxes written -----

  /** A box of its own for the id and, where the slot has no first box, a second
      one that forwards to it. */
  function BoxCost(opening: bool, acc: int): nat {
    if opening && acc > 1 then 2 else 1
  }

  ghost function NewCost(s: State, w: string): nat {
    var slot := CountOr(s.updtCnt, w, 0) + 1;
    BoxCost(CountOr(s.latest, w, 0) < slot, NextAcc(s.updt, w, slot))
  }

  /** Boxes that an insert writes: none for an id that is live. */
  ghost function InsertCost(s: State, w: string, ind: int): nat {
    if ById(w, ind) in s.updt && s.updt[ById(w, ind)].first != -1 then 0 else NewCost(s, w)
  }

  /** Boxes that a search writes back. */
  ghost function BoxesOf(acc: seq<int>, n: nat): nat
    requires n <= |acc|
  {
    if n == 0 then 0 else BoxesOf(acc, n - 1) + BoxCost(true, acc[n - 1])
  }

  ghost function SearchCost(k: Slots): nat {
    if |k.ids| <= |k.acc| then BoxesOf(k.acc, |k.ids|) else 0
  }

  lemma InsertTables(updt: map<UKey, Pair>, w: string, k: Slots, access: int, ind: int)
    requires TablesOk(updt, w, k, access) && ind !in k.ids
    ensures var n := |k.ids|;
            var acc := if n < |k.acc| then k.acc[n] + 1 else 1;
            && (BySlot(w, n + 1) in updt <==> n < |k.acc|)
            && (n < |k.acc| ==> updt[BySlot(w, n + 1)].acc == k.acc[n])
            && TablesOk(updt[ById(w, ind) := Pair(n + 1, acc)][BySlot(w, n + 1) := Pair(ind, acc)], w,
                        Slots(k.ids + [ind], if n < |k.acc| then k.acc[n := acc] else k.acc + [acc], k.ever + {ind}),
                        if acc > access then acc else access)
  {
    var n := |k.ids|;
    var acc := if n < |k.acc| then k.acc[n] + 1 else 1;
    if n < |k.acc| { assert SlotRow(updt, w, k, access, n); }
    var updt' := updt[ById(w, ind) := Pair(n + 1, acc)][BySlot(w, n + 1) := Pair(ind, acc)];
    var k' := Slots(k.ids + [ind], if n < |k.acc| then k.acc[n := acc] else k.acc + [acc], k.ever + {ind});
    var access' := if acc > access then acc else access;
    forall i | 0 <= i < |k'.acc| ensures SlotRow(updt', w, k', access', i) {
      if i < |k.acc| { assert SlotRow(updt, w, k, access, i); }
    }
  }

  /** Writing the box one above the top of a slot, or the first box of a slot. */
  ghost function Pushed(boxes: map<Bid, Value>, w: string, slot: int, src: int, acc: int, ind: int,
                        opening: bool): map<Bid, Value> {
    var b := boxes[Full(slot, src, acc, w) := Ind(ind)];
    if opening && acc > 1 then b[Full(slot, src, 1, w) := At(acc)] else b
  }

  lemma PushKeepsRange(boxes: map<Bid, Value>, w: string, slot: int, src: int, acc: int, ind: int)
    requires acc >= 2 && Ranged(Cells(boxes, w, slot, src), acc - 1)
    ensures var g := Cells(Pushed(boxes, w, slot, src, acc, ind, false), w, slot, src);
            Ranged(g, acc) && g(acc) == Ind(ind)
  {
    var f, g := Cells(boxes, w, slot, src), Cells(Pushed(boxes, w, slot, src, acc, ind, false), w, slot, src);
    assert forall a :: a != acc ==> g(a) == f(a);
    assert g(1) == f(1);
  }

  lemma PushStartsRange(boxes: map<Bid, Value>, w: string, slot: int, src: int, acc: int, ind: int)
    requires acc >= 1 && forall a :: Full(slot, src, a, w) !in boxes
    ensures var g := Cells(Pushed(boxes, w, slot, src, acc, ind, true), w, slot, src);
            Ranged(g, acc) && g(acc) == Ind(ind)
  {
    var g := Cells(Pushed(boxes, w, slot, src, acc, ind, true), w, slot, src);
    assert g(acc) == Ind(ind);
    assert acc > 1 ==> g(1) == At(acc);
  }

  lemma PushOther(boxes: map<Bid, Value>, w: string, slot: int, src: int, acc: int, ind: int, opening: bool, other: int)
    requires other != slot
    ensures var b := Pushed(boxes, w, slot, src, acc, ind, opening);
            forall a :: Cells(b, w, other, src)(a) == Cells(boxes, w, other, src)(a)
  {
  }

  /** A write to slot i + 1 replaces the last box of that slot and no other. */
  lemma PushKeepsBoxes(boxes: map<Bid, Value>, w: string, src: int, latest: int, k: Slots, k': Slots, i: nat, ind: int,
                       opening: bool)
    requires BoxesOk(boxes, w, src, latest, k)
    requires i < |k'.acc| && |k.acc| <= |k'.acc| && |k'.ids| <= (if opening then latest + 1 else latest) <= |k'.acc|
    requires forall j :: 0 <= j < latest && j != i ==> k'.acc[j] == k.acc[j]
    requires forall j :: 0 <= j < latest && j != i && j < |k'.ids| ==> j < |k.ids| && k'.ids[j] == k.ids[j]
    requires i < |k'.ids| ==> k'.ids[i] == ind
    requires if opening then i == latest && k'.acc[i] >= 1 else i < latest && k'.acc[i] == k.acc[i] + 1
    ensures var b := Pushed(boxes, w, i + 1, src, k'.acc[i], ind, opening);
            BoxesOk(b, w, src, if opening then latest + 1 else latest, k')
  {
    hide Ranged, Cells;
    var b' := Pushed(boxes, w, i + 1, src, k'.acc[i], ind, opening);
    forall j | 0 <= j < (if opening then latest + 1 else latest) ensures SlotBoxes(b', w, src, k', j) {
      if j == i {
        if opening {
          PushStartsRange(boxes, w, i + 1, src, k'.acc[i], ind);
        } else {
          assert SlotBoxes(boxes, w, src, k, i);
          AccAtLeastOne(Cells(boxes, w, i + 1, src), k.acc[i]);
          PushKeepsRange(boxes, w, i + 1, src, k'.acc[i], ind);
        }
      } else {
        assert SlotBoxes(boxes, w, src, k, j);
        PushOther(boxes, w, i + 1, src, k'.acc[i], ind, opening, j + 1);
        SameCells(boxes, b', w, j + 1, src, k.acc[j]);
      }
    }
  }

  lemma AccAtLeastOne(g: int -> Value, top: int)
    requires Ranged(g, top)
    ensures top >= 1
  {
  }

  lemma InsertKeyOk(s: State, sp: Spec, w: string, ind: int)
    requires KeyOk(s, sp, w) && ind !in SlotsOf(sp, w).ids
    ensures KeyOk(Inserted(s, w, ind), SpecInsert(sp, w, ind), w)
  {
    hide TablesOk, BoxesOk, Ranged, Pushed, Distinct;
    var k := SlotsOf(sp, w);
    var n := |k.ids|;
    var s' := Inserted(s, w, ind);
    if w in sp {
      var latest := s.latest[w];
      TablesLength(s.updt, w, k, s.access[w]);
      BoxesLength(s.boxes, w, s.srchCnt[w], latest, k);
      InsertTables(s.updt, w, k, s.access[w], ind);
      PushKeepsBoxes(s.boxes, w, s.srchCnt[w], latest, k, SpecInsert(sp, w, ind)[w], n, ind, latest == n);
    } else {
      EmptyTables(s.updt, w);
      EmptyBoxes(s.boxes, w);
      InsertTables(s.updt, w, k, 1, ind);
      PushKeepsBoxes(s.boxes, w, 0, 0, k, SpecInsert(sp, w, ind)[w], 0, ind, true);
    }
  }

  lemma EmptyTables(updt: map<UKey, Pair>, w: string)
    requires forall x :: x in updt ==> x.keyword != w
    ensures TablesOk(updt, w, Slots([], [], {}), 1)
  {
    forall ind ensures ById(w, ind) !in updt { assert ById(w, ind).keyword == w; }
    forall s ensures BySlot(w, s) !in updt { assert BySlot(w, s).keyword == w; }
  }

  lemma EmptyBoxes(boxes: map<Bid, Value>, w: string)
    requires forall x :: x in boxes ==> x.Full? && x.keyword != w
    ensures BoxesOk(boxes, w, 0, 0, Slots([], [], {}))
  {
    forall s, t, a ensures Full(s, t, a, w) !in boxes { assert Full(s, t, a, w).keyword == w; }
  }

  lemma TablesLength(updt: map<UKey, Pair>, w: string, k: Slots, access: int)
    requires TablesOk(updt, w, k, access)
    ensures |k.ids| <= |k.acc| && Distinct(k.ids) && access >= 1
    ensures forall i :: 0 <= i < |k.acc| ==> 1 <= k.acc[i] <= access
  {
    forall i | 0 <= i < |k.acc| ensures 1 <= k.acc[i] <= access { assert SlotRow(updt, w, k, access, i); }
  }

  lemma BoxesLength(boxes: map<Bid, Value>, w: string, src: int, latest: int, k: Slots)
    requires BoxesOk(boxes, w, src, latest, k)
    ensures |k.ids| <= latest <= |k.acc|
  {
  }

  lemma InsertOther(s: State, sp: Spec, w: string, ind: int, v: string)
    requires v != w
    ensures SameKey(s, sp, Inserted(s, w, ind), SpecInsert(sp, w, ind), v)
  {
    hide CountOr, NextAcc, Larger, NextLatest, Pushed;
    var slot := CountOr(s.updtCnt, w, 0) + 1;
    PushedElsewhere(s.boxes, w, slot, CountOr(s.srchCnt, w, 0), NextAcc(s.updt, w, slot), ind,
                    CountOr(s.latest, w, 0) < slot, v);
  }

  lemma PushedElsewhere(boxes: map<Bid, Value>, w: string, slot: int, src: int, acc: int, ind: int, opening: bool,
                        v: string)
    requires v != w
    ensures var b := Pushed(boxes, w, slot, src, acc, ind, opening);
            && (forall x: Bid :: x.Full? && x.keyword == v ==> (x in boxes <==> x in b))
            && (forall x: Bid :: x.Full? && x.keyword == v && x in boxes ==> boxes[x] == b[x])
  {
  }

  lemma InsertKeeps(s: State, sp: Spec, w: string, ind: int)
    requires Invariant(s, sp) && ind !in SlotsOf(sp, w).ids
    ensures Invariant(Inserted(s, w, ind), SpecInsert(sp, w, ind))
  {
    hide Known, Unknown, SameKey, KeyOk;
    var s', sp' := Inserted(s, w, ind), SpecInsert(sp, w, ind);
    assert KeyOk(s, sp, w);
    InsertSlotPositive(s, sp, w);
    forall v ensures KeyOk(s', sp', v) {
      assert KeyOk(s, sp, v);
      if v == w {
        InsertKeyOk(s, sp, w, ind);
      } else {
        InsertOther(s, sp, w, ind, v);
        SameKeyKeeps(s, sp, s', sp', v);
      }
    }
  }

  lemma InsertSlotPositive(s: State, sp: Spec, w: string)
    requires KeyOk(s, sp, w)
    ensures w in s.updtCnt ==> s.updtCnt[w] >= 0
  {
  }

  // ----- removal -----

  /** The removed id was not in the last slot, so the last id moves into its slot. */
  ghost predicate Moves(s: State, w: string, ind: int)
    requires ById(w, ind) in s.updt && w in s.updtCnt
  {
    s.updtCnt[w] > 1 && w in s.lastInd && s.updtCnt[w] != s.updt[ById(w, ind)].first
  }

  /** Boxes that a remove writes: one if the last id moves. */
  ghost function RemoveCost(s: State, w: string, ind: int): nat {
    if ById(w, ind) in s.updt && s.updt[ById(w, ind)].first > 0 && w in s.updtCnt && Moves(s, w, ind) then 1 else 0
  }

  ghost function RemovedUpdt(s: State, w: string, ind: int): map<UKey, Pair>
    requires ById(w, ind) in s.updt && w in s.updtCnt
  {
    var Pair(slot, acc) := s.updt[ById(w, ind)];
    var gone := s.updt[ById(w, ind) := Pair(-1, acc + 1)];
    if Moves(s, w, ind) then
      gone[ById(w, s.lastInd[w]) := Pair(slot, acc + 1)][BySlot(w, slot) := Pair(s.lastInd[w], acc + 1)]
    else gone
  }

  ghost function RemovedBoxes(s: State, w: string, ind: int): map<Bid, Value>
    requires ById(w, ind) in s.updt && w in s.updtCnt && w in s.srchCnt
  {
    var Pair(slot, acc) := s.updt[ById(w, ind)];
    if Moves(s, w, ind) then s.boxes[Full(slot, s.srchCnt[w], acc + 1, w) := Ind(s.lastInd[w])] else s.boxes
  }

  ghost function RemovedLast(s: State, w: string, updt: map<UKey, Pair>, n: int): map<string, int> {
    if n > 0 then if BySlot(w, n) in updt then s.lastInd[w := updt[BySlot(w, n)].first] else s.lastInd
    else s.lastInd - {w}
  }

  ghost function Removed(s: State, w: string, ind: int): State
    requires ById(w, ind) in s.updt && w in s.updtCnt && w in s.srchCnt && w in s.access
  {
    var acc := s.updt[ById(w, ind)].acc + 1;
    var updt := RemovedUpdt(s, w, ind);
    s.(updt := updt, updtCnt := s.updtCnt[w := s.updtCnt[w] - 1],
       access := if Moves(s, w, ind) && acc > s.access[w] then s.access[w := acc] else s.access,
       lastInd := RemovedLast(s, w, updt, s.updtCnt[w] - 1),
       boxes := RemovedBoxes(s, w, ind))
  }

  /** The entry of a live id leads to its slot. */
  lemma LiveEntry(updt: map<UKey, Pair>, w: string, k: Slots, access: int, ind: int)
    requires TablesOk(updt, w, k, access) && ind in k.ids
    ensures var i := IndexOf(k.ids, ind);
            i < |k.acc| && ById(w, ind) in updt && updt[ById(w, ind)] == Pair(i + 1, k.acc[i])
  {
    assert SlotRow(updt, w, k, access, IndexOf(k.ids, ind));
  }

  lemma RemoveLastTables(updt: map<UKey, Pair>, w: string, k: Slots, access: int)
    requires TablesOk(updt, w, k, access) && |k.ids| > 0
    ensures var n := |k.ids| - 1;
            TablesOk(updt[ById(w, k.ids[n]) := Pair(-1, k.acc[n] + 1)], w, k.(ids := k.ids[..n]), access)
  {
    var n := |k.ids| - 1;
    var updt', k' := updt[ById(w, k.ids[n]) := Pair(-1, k.acc[n] + 1)], k.(ids := k.ids[..n]);
    assert k.ids[n] in k.ids;
    forall i | 0 <= i < |k'.acc| ensures SlotRow(updt', w, k', access, i) {
      assert SlotRow(updt, w, k, access, i);
    }
    forall ind | ind in k'.ids ensures ind in k'.ever { assert ind in k.ids; }
    forall ind | ind in k'.ever && ind !in k'.ids ensures updt'[ById(w, ind)].first == -1 {
      if ind in k.ids { assert ind == k.ids[n]; }
    }
  }

  /** The entries after the id last has taken over the slot of ind. */
  ghost function Swapped(updt: map<UKey, Pair>, w: string, ind: int, last: int, slot: int, acc: int): map<UKey, Pair> {
    updt[ById(w, ind) := Pair(-1, acc)][ById(w, last) := Pair(slot, acc)][BySlot(w, slot) := Pair(last, acc)]
  }

  lemma RemoveInnerTables(updt: map<UKey, Pair>, w: string, k: Slots, access: int, i: nat)
    requires TablesOk(updt, w, k, access) && i < |k.ids| - 1
    ensures var n, acc := |k.ids| - 1, k.acc[i] + 1;
            TablesOk(Swapped(updt, w, k.ids[i], k.ids[n], i + 1, acc), w,
                     k.(ids := k.ids[i := k.ids[n]][..n], acc := k.acc[i := acc]),
                     if acc > access then acc else access)
  {
    var n, acc := |k.ids| - 1, k.acc[i] + 1;
    var updt' := Swapped(updt, w, k.ids[i], k.ids[n], i + 1, acc);
    var k' := k.(ids := k.ids[i := k.ids[n]][..n], acc := k.acc[i := acc]);
    var access' := if acc > access then acc else access;
    assert k.ids[n] in k.ids && k.ids[i] in k.ids && k.ids[i] != k.ids[n];
    assert SlotRow(updt, w, k, access, i);
    assert |k'.acc| == |k.acc|;
    forall j | 0 <= j < |k'.acc| ensures SlotRow(updt', w, k', access', j) {
      assert SlotRow(updt, w, k, access, j);
    }
    SwapMembers(k.ids, i);
    forall ind | ind in k'.ever && ind !in k'.ids ensures updt'[ById(w, ind)].first == -1 {
      if ind in k.ids { assert ind == k.ids[i]; }
    }
  }

  /** Swap-with-last removes exactly one id. */
  lemma SwapMembers(ids: seq<int>, i: nat)
    requires Distinct(ids) && i < |ids| - 1
    ensures var n := |ids| - 1; var swapped := ids[i := ids[n]][..n];
            && Distinct(swapped)
            && forall x :: x in swapped <==> x in ids && x != ids[i]
  {
    var n := |ids| - 1;
    var swapped := ids[i := ids[n]][..n];
    forall x | x in ids && x != ids[i] ensures x in swapped {
      var j :| 0 <= j < |ids| && ids[j] == x;
      assert swapped[if j == n then i else j] == x;
    }
    forall x | x in swapped ensures x in ids && x != ids[i] {
      var j :| 0 <= j < |swapped| && swapped[j] == x;
      assert x == ids[if j == i then n else j];
    }
  }

  lemma ShrinkBoxes(boxes: map<Bid, Value>, w: string, src: int, latest: int, k: Slots)
    requires BoxesOk(boxes, w, src, latest, k) && |k.ids| > 0
    ensures BoxesOk(boxes, w, src, latest, k.(ids := k.ids[..|k.ids| - 1]))
  {
    hide Ranged, Cells;
    var k' := k.(ids := k.ids[..|k.ids| - 1]);
    forall i | 0 <= i < latest ensures SlotBoxes(boxes, w, src, k', i) {
      assert SlotBoxes(boxes, w, src, k, i);
    }
  }

  lemma RemoveKeyOk(s: State, sp: Spec, w: string, ind: int)
    requires w in sp && Known(s, w, sp[w]) && ind in sp[w].ids && ById(w, ind) in s.updt
    ensures KeyOk(Removed(s, w, ind), SpecRemove(sp, w, ind), w)
  {
    hide TablesOk, BoxesOk, Ranged, IndexOf;
    var k := sp[w];
    var n, i := |k.ids| - 1, IndexOf(k.ids, ind);
    TablesLength(s.updt, w, k, s.access[w]);
    BoxesLength(s.boxes, w, s.srchCnt[w], s.latest[w], k);
    LiveEntry(s.updt, w, k, s.access[w], ind);
    var s', k' := Removed(s, w, ind), SpecRemove(sp, w, ind)[w];
    if i == n {
      RemoveLastTables(s.updt, w, k, s.access[w]);
      ShrinkBoxes(s.boxes, w, s.srchCnt[w], s.latest[w], k);
    } else {
      RemoveInnerTables(s.updt, w, k, s.access[w], i);
      PushKeepsBoxes(s.boxes, w, s.srchCnt[w], s.latest[w], k, k', i, k.ids[n], false);
    }
    if n > 0 { LastEntry(s'.updt, w, k', s'.access[w]); }
  }

  lemma LastEntry(updt: map<UKey, Pair>, w: string, k: Slots, access: int)
    requires TablesOk(updt, w, k, access) && |k.ids| > 0
    ensures BySlot(w, |k.ids|) in updt && updt[BySlot(w, |k.ids|)].first == k.ids[|k.ids| - 1]
  {
    assert SlotRow(updt, w, k, access, |k.ids| - 1);
  }

  lemma RemoveOther(s: State, sp: Spec, w: string, ind: int, v: string)
    requires v != w && ById(w, ind) in s.updt && w in s.updtCnt && w in s.srchCnt && w in s.access
    ensures SameKey(s, sp, Removed(s, w, ind), SpecRemove(sp, w, ind), v)
  {
    hide IndexOf, RemovedUpdt, RemovedBoxes;
    UpdtFrame(s, w, ind);
    BoxesFrame(s, w, ind);
  }

  lemma UpdtFrame(s: State, w: string, ind: int)
    requires ById(w, ind) in s.updt && w in s.updtCnt
    ensures var u := RemovedUpdt(s, w, ind);
            && (forall x :: x in s.updt ==> x in u)
            && (forall x :: x in u && x.keyword != w ==> x in s.updt && u[x] == s.updt[x])
  {
  }

  lemma BoxesFrame(s: State, w: string, ind: int)
    requires ById(w, ind) in s.updt && w in s.updtCnt && w in s.srchCnt
    ensures var b := RemovedBoxes(s, w, ind);
            && (forall x :: x in s.boxes ==> x in b)
            && (forall x :: x in b && (x.Full? ==> x.keyword != w) ==> x in s.boxes && b[x] == s.boxes[x])
  {
  }

  lemma RemoveKeeps(s: State, sp: Spec, w: string, ind: int)
    requires Invariant(s, sp) && w in sp && ind in sp[w].ids
    ensures ById(w, ind) in s.updt && w in s.updtCnt && w in s.srchCnt && w in s.access
    ensures s.updt[ById(w, ind)].first >= 1
    ensures Invariant(Removed(s, w, ind), SpecRemove(sp, w, ind))
  {
    hide TablesOk, BoxesOk, SameKey, Unknown, SpecRemove, Removed;
    assert KeyOk(s, sp, w);
    LiveEntry(s.updt, w, sp[w], s.access[w], ind);
    var s', sp' := Removed(s, w, ind), SpecRemove(sp, w, ind);
    RemoveFull(s, w, ind);
    forall v ensures KeyOk(s', sp', v) {
      hide Known;
      assert KeyOk(s, sp, v);
      if v == w {
        RemoveKeyOk(s, sp, w, ind);
      } else {
        RemoveOther(s, sp, w, ind, v);
        SameKeyKeeps(s, sp, s', sp', v);
      }
    }
  }

  lemma RemoveFull(s: State, w: string, ind: int)
    requires forall x :: x in s.boxes ==> x.Full? && x.slot >= 1
    requires ById(w, ind) in s.updt && w in s.updtCnt && w in s.srchCnt && w in s.access
    requires s.updt[ById(w, ind)].first >= 1
    ensures forall x :: x in Removed(s, w, ind).boxes ==> x.Full? && x.slot >= 1
  {
  }

  /** An id with an entry that is not live is marked as removed. */
  lemma DeadEntry(s: State, sp: Spec, w: string, ind: int)
    requires Invariant(s, sp)
    ensures ById(w, ind) in s.updt <==> w in sp && ind in sp[w].ever
    ensures ById(w, ind) in s.updt ==> (ind in sp[w].ids <==> s.updt[ById(w, ind)].first > 0)
    ensures ById(w, ind) in s.updt && ind !in sp[w].ids ==> s.updt[ById(w, ind)].first == -1
    ensures ind in SlotsOf(sp, w).ids ==> ById(w, ind) in s.updt
  {
    hide BoxesOk;
    assert KeyOk(s, sp, w);
    if w in sp {
      if ind in sp[w].ids { LiveEntry(s.updt, w, sp[w], s.access[w], ind); }
    } else {
      assert ById(w, ind).keyword == w;
    }
  }

  // ----- search -----

  /** The boxes of slot i + 1 after it was reissued in an epoch: its id under its
      counter and, when that is not 1, a forwarding record under 1. */
  ghost predicate Reissued(boxes: map<Bid, Value>, w: string, src: int, slot: int, acc: int, id: Value) {
    forall a :: Cells(boxes, w, slot, src)(a) == if a == acc then id else if a == 1 then At(acc) else Nothing
  }

  /** What a search leaves: the slots in done reissued in epoch src, no other
      slot has a box there, and nothing else of any keyword changed. */
  ghost predicate Rebuilt(before: map<Bid, Value>, after: map<Bid, Value>, w: string, src: int, k: Slots,
                          done: set<int>) {
    && (forall i :: i in done ==>
          0 <= i < |k.ids| && i < |k.acc| && Reissued(after, w, src, i + 1, k.acc[i], Ind(k.ids[i])))
    && (forall x: Bid :: x.Full? && x.keyword == w && x.src == src && x.slot - 1 !in done ==> x !in after)
    && (forall x: Bid :: !(x.Full? && x.keyword == w && x.src == src) ==> (x in after <==> x in before))
    && (forall x: Bid :: !(x.Full? && x.keyword == w && x.src == src) && x in before ==> after[x] == before[x])
  }

  lemma RebuiltStart(boxes: map<Bid, Value>, w: string, src: int, k: Slots)
    requires forall s, t, a :: t > src ==> Full(s, t, a, w) !in boxes
    ensures Rebuilt(boxes, boxes, w, src + 1, k, {})
  {
    forall x: Bid | x.Full? && x.keyword == w && x.src == src + 1 ensures x !in boxes {
      assert x == Full(x.slot, x.src, x.acc, w);
    }
  }

  lemma RebuiltStep(before: map<Bid, Value>, after: map<Bid, Value>, w: string, src: int, k: Slots, done: set<int>,
                    i: nat)
    requires Rebuilt(before, after, w, src, k, done) && i !in done && i < |k.ids| && i < |k.acc| && k.acc[i] >= 1
    ensures Rebuilt(before, Pushed(after, w, i + 1, src, k.acc[i], k.ids[i], true), w, src, k, done + {i})
  {
    hide Cells;
    var b' := Pushed(after, w, i + 1, src, k.acc[i], k.ids[i], true);
    forall j | j in done + {i}
      ensures 0 <= j < |k.ids| && j < |k.acc| && Reissued(b', w, src, j + 1, k.acc[j], Ind(k.ids[j])) {
      if j == i {
        PushReissues(after, w, src, i + 1, k.acc[i], k.ids[i]);
      } else {
        PushOther(after, w, i + 1, src, k.acc[i], k.ids[i], true, j + 1);
      }
    }
    forall x: Bid | x.Full? && x.keyword == w && x.src == src && x.slot - 1 !in done + {i} ensures x !in b' {
      assert x !in after;
    }
  }

  lemma PushReissues(boxes: map<Bid, Value>, w: string, src: int, slot: int, acc: int, ind: int)
    requires acc >= 1 && forall x: Bid :: x.Full? && x.keyword == w && x.src == src && x.slot == slot ==> x !in boxes
    ensures Reissued(Pushed(boxes, w, slot, src, acc, ind, true), w, src, slot, acc, Ind(ind))
  {
    forall a
      ensures a != acc && a != 1 ==> Full(slot, src, a, w) !in boxes { assert Full(slot, src, a, w).slot == slot; }
    assert Full(slot, src, 1, w) !in boxes by { assert Full(slot, src, 1, w).slot == slot; }
  }

  /** The state after a search of w. */
  ghost function Searched(s: State, w: string, boxes: map<Bid, Value>, n: int): State
    requires w in s.srchCnt
  {
    s.(srchCnt := s.srchCnt[w := s.srchCnt[w] + 1], latest := s.latest[w := n], boxes := boxes)
  }

  ghost predicate AllSlots(done: set<int>, n: nat) {
    forall i :: i in done <==> 0 <= i < n
  }

  lemma SearchBoxes(before: map<Bid, Value>, after: map<Bid, Value>, w: string, src: int, latest: int, k: Slots,
                    done: set<int>)
    requires BoxesOk(before, w, src, latest, k) && Rebuilt(before, after, w, src + 1, k, done)
    requires AllSlots(done, |k.ids|)
    requires forall i :: 0 <= i < |k.acc| ==> k.acc[i] >= 1
    ensures BoxesOk(after, w, src + 1, |k.ids|, k)
  {
    hide Cells;
    var now := src + 1;
    forall i | 0 <= i < |k.ids| ensures SlotBoxes(after, w, now, k, i) {
      assert i in done;
      ReissuedRange(after, w, now, i + 1, k.acc[i], k.ids[i]);
    }
    forall s, a | s > |k.ids| ensures Full(s, now, a, w) !in after {
      assert Full(s, now, a, w).slot - 1 !in done;
    }
    forall s, t, a | t > now ensures Full(s, t, a, w) !in after {
      assert Full(s, t, a, w) !in before;
    }
  }

  lemma ReissuedRange(boxes: map<Bid, Value>, w: string, src: int, slot: int, acc: int, ind: int)
    requires acc >= 1 && Reissued(boxes, w, src, slot, acc, Ind(ind))
    ensures var g := Cells(boxes, w, slot, src); Ranged(g, acc) && g(acc) == Ind(ind)
  {
    hide Cells;
    var g := Cells(boxes, w, slot, src);
    assert g(1) == if acc == 1 then Ind(ind) else At(acc);
  }

  lemma SearchKeeps(s: State, sp: Spec, w: string, boxes: map<Bid, Value>, done: set<int>)
    requires Invariant(s, sp) && w in sp && w in s.srchCnt
    requires Rebuilt(s.boxes, boxes, w, s.srchCnt[w] + 1, sp[w], done) && AllSlots(done, |sp[w].ids|)
    ensures Invariant(Searched(s, w, boxes, |sp[w].ids|), sp)
  {
    hide TablesOk, BoxesOk, Unknown, Reissued;
    var s' := Searched(s, w, boxes, |sp[w].ids|);
    assert KeyOk(s, sp, w);
    TablesLength(s.updt, w, sp[w], s.access[w]);
    forall x | x in boxes ensures x.Full? && x.slot >= 1 {
      if x !in s.boxes { assert x.slot - 1 in done; }
    }
    forall v ensures KeyOk(s', sp, v) {
      assert KeyOk(s, sp, v);
      if v == w {
        SearchBoxes(s.boxes, boxes, w, s.srchCnt[w], s.latest[w], sp[w], done);
      } else {
        SameKeyKeeps(s, sp, s', sp, v);
      }
    }
  }

  // ----- what the operations cost -----

  /** The part of the client's counters that the number of boxes and of rounds
      depends on, beside the slots. */
  datatype Counters = Counters(spec: Spec, latest: map<string, int>, access: map<string, int>)

  ghost function CountersOf(s: State, sp: Spec): Counters {
    Counters(sp, s.latest, s.access)
  }

  /** The access counter of the next box of the first free slot. */
  function FreeAcc(k: Slots): int {
    if |k.ids| < |k.acc| then k.acc[|k.ids|] + 1 else 1
  }

  /** The id is live and not in the last slot. */
  predicate Swaps(k: Slots, ind: int) {
    ind in k.ids && IndexOf(k.ids, ind) < |k.ids| - 1
  }

  /** The access counter of the slot that the last id moves to. */
  function SwapAcc(k: Slots, ind: int): int
    requires ind in k.ids
  {
    var i := IndexOf(k.ids, ind);
    if i < |k.acc| then k.acc[i] + 1 else 1
  }

  function PutCost(c: Counters, w: string, ind: int): nat {
    var k := SlotsOf(c.spec, w);
    if ind in k.ids then 0 else BoxCost(CountOr(c.latest, w, 0) < |k.ids| + 1, FreeAcc(k))
  }

  function DropCost(c: Counters, w: string, ind: int): nat {
    if Swaps(SlotsOf(c.spec, w), ind) then 1 else 0
  }

  ghost function QueryCost(c: Counters, w: string): nat {
    if w in c.spec then SearchCost(c.spec[w]) else 0
  }

  function AfterPut(c: Counters, w: string, ind: int): Counters {
    var k := SlotsOf(c.spec, w);
    if ind in k.ids then c
    else
      Counters(SpecInsert(c.spec, w, ind),
               c.latest[w := NextLatest(CountOr(c.latest, w, 0), |k.ids| + 1)],
               c.access[w := Larger(FreeAcc(k), CountOr(c.access, w, 1))])
  }

  function AfterDrop(c: Counters, w: string, ind: int): Counters {
    var k := SlotsOf(c.spec, w);
    Counters(SpecRemove(c.spec, w, ind), c.latest,
             if Swaps(k, ind) then c.access[w := Larger(SwapAcc(k, ind), CountOr(c.access, w, 1))] else c.access)
  }

  function AfterQuery(c: Counters, w: string): Counters {
    if w in c.spec then c.(latest := c.latest[w := |c.spec[w].ids|]) else c
  }

  lemma NextIsFree(updt: map<UKey, Pair>, w: string, k: Slots, access: int)
    requires TablesOk(updt, w, k, access)
    ensures NextAcc(updt, w, |k.ids| + 1) == FreeAcc(k)
  {
    if |k.ids| < |k.acc| { assert SlotRow(updt, w, k, access, |k.ids|); }
  }

  /** The next slot of a keyword, known or not. */
  lemma NextSlot(s: State, sp: Spec, w: string)
    requires KeyOk(s, sp, w)
    ensures CountOr(s.updtCnt, w, 0) == |SlotsOf(sp, w).ids|
    ensures NextAcc(s.updt, w, |SlotsOf(sp, w).ids| + 1) == FreeAcc(SlotsOf(sp, w))
  {
    hide BoxesOk, TablesOk, NextAcc, FreeAcc;
    if w in sp {
      NextIsFree(s.updt, w, sp[w], s.access[w]);
    } else {
      EmptyTables(s.updt, w);
      NextIsFree(s.updt, w, SlotsOf(sp, w), 1);
    }
  }

  lemma KeyAt(s: State, sp: Spec, w: string)
    requires Invariant(s, sp)
    ensures KeyOk(s, sp, w)
  {
  }

  /** An insert writes these boxes and leaves these counters. */
  lemma PutCounts(s: State, sp: Spec, w: string, ind: int)
    requires Invariant(s, sp)
    ensures PutCost(CountersOf(s, sp), w, ind) == InsertCost(s, w, ind)
    ensures ind !in SlotsOf(sp, w).ids ==>
      CountersOf(Inserted(s, w, ind), SpecInsert(sp, w, ind)) == AfterPut(CountersOf(s, sp), w, ind)
  {
    hide Invariant, KeyOk, BoxCost, NextLatest, Larger, SpecInsert, Pushed, FreeAcc, NextAcc, SlotsOf, CountOr;
    KeyAt(s, sp, w);
    NextSlot(s, sp, w);
    LiveMark(s, sp, w, ind);
  }

  /** The entry of an id tells whether it is live. */
  lemma LiveMark(s: State, sp: Spec, w: string, ind: int)
    requires Invariant(s, sp)
    ensures ind in SlotsOf(sp, w).ids <==> ById(w, ind) in s.updt && s.updt[ById(w, ind)].first != -1
  {
    hide Invariant;
    DeadEntry(s, sp, w, ind);
  }

  /** A remove of a live id writes these boxes and leaves these counters. */
  lemma DropCounts(s: State, sp: Spec, w: string, ind: int)
    requires Invariant(s, sp)
    ensures DropCost(CountersOf(s, sp), w, ind) == RemoveCost(s, w, ind)
    ensures
      w in sp && ind in sp[w].ids && ById(w, ind) in s.updt && w in s.updtCnt && w in s.srchCnt && w in s.access ==>
      CountersOf(Removed(s, w, ind), SpecRemove(sp, w, ind)) == AfterDrop(CountersOf(s, sp), w, ind)
  {
    hide BoxesOk, TablesOk, IndexOf, SpecRemove, RemovedUpdt, RemovedBoxes, RemovedLast;
    assert KeyOk(s, sp, w);
    DeadEntry(s, sp, w, ind);
    if w in sp {
      TablesLength(s.updt, w, sp[w], s.access[w]);
      if ind in sp[w].ids { LiveEntry(s.updt, w, sp[w], s.access[w], ind); }
    }
  }

  /** In numbers: a live id costs nothing to insert, any other one box, and a second one
      where the next slot is new in this epoch but was used before. A remove costs one
      box if the id is live and not in the last slot. */
  lemma UpdateCosts(s: State, sp: Spec, w: string, ind: int)
    requires Invariant(s, sp) && w in sp && w in s.latest
    ensures var k := sp[w];
            PutCost(CountersOf(s, sp), w, ind) ==
            if ind in k.ids then 0 else if s.latest[w] <= |k.ids| < |k.acc| then 2 else 1
    ensures var k := sp[w];
            DropCost(CountersOf(s, sp), w, ind) ==
            if ind in k.ids && k.ids[|k.ids| - 1] != ind then 1 else 0
  {
    hide BoxesOk, IndexOf;
    assert KeyOk(s, sp, w);
    TablesLength(s.updt, w, sp[w], s.access[w]);
    if ind in sp[w].ids { assert sp[w].ids[IndexOf(sp[w].ids, ind)] == ind; }
  }

  /** A search costs one box for every live id, and another one for every slot with an
      access counter above 1. */
  lemma {:induction false} SearchCosts(acc: seq<int>, n: nat)
    requires n <= |acc|
    ensures BoxesOf(acc, n) == n + |set i: nat | i < n && acc[i] > 1|
  {
    var here := set i: nat | i < n && acc[i] > 1;
    if n == 0 {
      assert here == {};
    } else {
      SearchCosts(acc, n - 1);
      var before := set i: nat | i < n - 1 && acc[i] > 1;
      forall j: nat ensures j in here <==> j in before || (acc[n - 1] > 1 && j == n - 1) {
      }
      CountNext(before, here, n - 1, acc[n - 1] > 1);
    }
  }
}

/** Horus: insertion into slots, swap-with-last removal, and a search that finds
    the current box of every slot by a lock-step binary search over the access
    counters. The boxes live in the Path ORAM of module PrfOram. */
module Horus {
  import opened Powers
  import opened Collections
  import opened Bids
  import opened PrfOram
  import opened HorusProbe
  import opened HorusState

  /** Slots before i whose search is not finished. */
  function Pending(probes: seq<Probe>, i: nat): nat
    requires i <= |probes|
  {
    if i == 0 then 0 else Pending(probes, i - 1) + if probes[i - 1].found then 0 else 1
  }

  ghost function FoundIds(probes: seq<Probe>, ids: seq<int>, n: nat): multiset<int>
    requires n <= |probes| && n <= |ids|
  {
    if n == 0 then multiset{}
    else FoundIds(probes, ids, n - 1) + if probes[n - 1].found then multiset{ids[n - 1]} else multiset{}
  }

  lemma {:induction false} FoundIdsFrame(probes: seq<Probe>, probes': seq<Probe>, ids: seq<int>, n: nat)
    requires n <= |probes| && n <= |probes'| && n <= |ids|
    requires forall i :: 0 <= i < n ==> probes[i].found == probes'[i].found
    ensures FoundIds(probes, ids, n) == FoundIds(probes', ids, n)
  {
    if n > 0 { FoundIdsFrame(probes, probes', ids, n - 1); }
  }

  lemma {:induction false} FoundIdsAdd(probes: seq<Probe>, p: Probe, ids: seq<int>, i: nat, n: nat)
    requires i < n <= |probes| && n <= |ids| && !probes[i].found && p.found
    ensures FoundIds(probes[i := p], ids, n) == FoundIds(probes, ids, n) + multiset{ids[i]}
  {
    if i < n - 1 {
      FoundIdsAdd(probes, p, ids, i, n - 1);
    } else {
      FoundIdsFrame(probes, probes[i := p], ids, n - 1);
    }
  }

  lemma {:induction false} FoundIdsAll(probes: seq<Probe>, ids: seq<int>, n: nat)
    requires n <= |probes| && n <= |ids|
    ensures |FoundIds(probes, ids, n)| <= n
    ensures (forall i :: 0 <= i < n ==> probes[i].found) ==> FoundIds(probes, ids, n) == multiset(ids[..n])
    ensures (forall i :: 0 <= i < n ==> !probes[i].found) ==> FoundIds(probes, ids, n) == multiset{}
  {
    if n > 0 {
      FoundIdsAll(probes, ids, n - 1);
      PrefixLast(ids, n);
    }
  }

  lemma PrefixLast(ids: seq<int>, n: nat)
    requires 1 <= n <= |ids|
    ensures multiset(ids[..n]) == multiset(ids[..n - 1]) + multiset{ids[n - 1]}
  {
    assert ids[..n] == ids[..n - 1] + [ids[n - 1]];
  }

  ghost function DoneSet(probes: seq<Probe>): set<int> {
    set i | 0 <= i < |probes| && probes[i].found
  }

  /** Boxes written back so far. */
  ghost function FoundBoxes(probes: seq<Probe>, acc: seq<int>, n: nat): nat
    requires n <= |probes| && n <= |acc|
  {
    if n == 0 then 0 else FoundBoxes(probes, acc, n - 1) + if probes[n - 1].found then BoxCost(true, acc[n - 1]) else 0
  }

  lemma {:induction false} FoundBoxesFrame(probes: seq<Probe>, probes': seq<Probe>, acc: seq<int>, n: nat)
    requires n <= |probes| && n <= |probes'| && n <= |acc|
    requires forall i :: 0 <= i < n ==> probes[i].found == probes'[i].found
    ensures FoundBoxes(probes, acc, n) == FoundBoxes(probes', acc, n)
  {
    if n > 0 { FoundBoxesFrame(probes, probes', acc, n - 1); }
  }

  lemma {:induction false} FoundBoxesAdd(probes: seq<Probe>, p: Probe, acc: seq<int>, i: nat, n: nat)
    requires i < n <= |probes| && n <= |acc| && !probes[i].found && p.found
    ensures FoundBoxes(probes[i := p], acc, n) == FoundBoxes(probes, acc, n) + BoxCost(true, acc[i])
  {
    if i < n - 1 {
      FoundBoxesAdd(probes, p, acc, i, n - 1);
    } else {
      FoundBoxesFrame(probes, probes[i := p], acc, n - 1);
    }
  }

  lemma {:induction false} FoundBoxesAll(probes: seq<Probe>, acc: seq<int>, n: nat)
    requires n <= |probes| && n <= |acc|
    ensures (forall i :: 0 <= i < n ==> probes[i].found) ==> FoundBoxes(probes, acc, n) == BoxesOf(acc, n)
    ensures (forall i :: 0 <= i < n ==> !probes[i].found) ==> FoundBoxes(probes, acc, n) == 0
  {
    if n > 0 { FoundBoxesAll(probes, acc, n - 1); }
  }

  /** What a search may write: ids of slots, never null, never bare. */
  ghost predicate ItemOk(generate: Bid -> int, item: (Bid, Value, int)) {
    item.0.Full? && item.0.slot >= 1 && item.2 == generate(item.0)
  }

  /** Everything the search knows between two steps. Slots below i have already
      been answered in the current round, which is number rounds + 1. */
  ghost predicate Progress(boxes: map<Bid, Value>, w: string, src: int, k: Slots, access: int,
                           probes: seq<Probe>, result: seq<int>, items: seq<(Bid, Value, int)>,
                           first: bool, rounds: nat, i: nat)
  {
    && |probes| == |k.ids| <= |k.acc| && i <= |probes| && access >= 1
    && (forall j :: 0 <= j < |probes| ==>
          SlotProgress(Cells(boxes, w, j + 1, src), k.acc[j], access, probes[j], first && j >= i,
                       if j < i then rounds + 1 else rounds))
    && multiset(result) == FoundIds(probes, k.ids, |k.ids|)
    && |items| == FoundBoxes(probes, k.acc, |k.ids|)
    && Rebuilt(boxes, PutAll(boxes, items), w, src + 1, k, DoneSet(probes))
  }

  ghost predicate SlotProgress(g: int -> Value, top: int, access: int, p: Probe, first: bool, rounds: nat)
    requires access >= 1
  {
    && (first ==> p == Begin(access) && rounds == 0)
    && (!first ==> ProbeOk(p, g, top, access))
    && (!first && !p.found ==> Remaining(p) + rounds <= CeilLog2(access) + 4)
  }

  /** One answer for one slot. */
  lemma SlotStep(g: int -> Value, top: int, access: int, p: Probe, first: bool, rounds: nat)
    requires Ranged(g, top) && top <= access && access >= 1
    requires SlotProgress(g, top, access, p, first, rounds) && !p.found
    ensures var q := if first then FirstStep(p, g(p.cur)) else NextStep(p, g(p.cur));
            && SlotProgress(g, top, access, q, false, rounds + 1)
            && (q.found ==> q.lastAcc == top && q.lastId == g(top))
            && (first ==> !q.found)
    ensures rounds + 1 <= CeilLog2(access) + 4
  {
    hide CeilLog2, Ranged;
    if first { FirstStepOk(g, top, access); } else { NextStepOk(p, g, top, access); }
  }

  class Scheme {
    const oram: Oram
    const generate: Bid -> int
    var updt: map<UKey, Pair>
    var updtCnt: map<string, int>
    var srchCnt: map<string, int>
    var access: map<string, int>
    var lastInd: map<string, int>
    var latest: map<string, int>
    ghost var spec: Spec

    ghost function View(): State
      reads this, oram
    {
      State(updt, updtCnt, srchCnt, access, lastInd, latest, oram.contents)
    }

    /** What the number of boxes and of rounds depends on. */
    ghost function Counters(): Counters
      reads this
    {
      HorusState.Counters(spec, latest, access)
    }

    ghost predicate Placed() {
      forall id :: generate(id) == oram.position(id) && 0 <= generate(id) < Pow2(oram.depth)
    }

    ghost predicate Valid()
      reads this, oram
    {
      oram.Valid() && Placed() && Invariant(View(), spec)
    }

    constructor (oram: Oram, generate: Bid -> int)
      requires oram.Valid() && oram.contents == map[]
      requires forall id :: generate(id) == oram.position(id) && 0 <= generate(id) < Pow2(oram.depth)
      ensures Valid() && this.oram == oram && Counters() == HorusState.Counters(map[], map[], map[])
    {
      this.oram := oram;
      this.generate := generate;
      updt, updtCnt, srchCnt, access, lastInd, latest := map[], map[], map[], map[], map[], map[];
      spec := map[];
      InitialInvariant();
    }

    /** Write one box; its id is never null because slots count from one. Fails, as
        the store does by an exception, when the write budget is used up. */
    method Write(id: Bid, value: Value) returns (ok: bool)
      requires oram.Valid() && Placed() && id.Full? && id.slot >= 1
      modifies oram
      ensures oram.Valid() && (ok <==> old(oram.budget) >= 1)
      ensures oram.budget == old(oram.budget) - if ok then 1 else 0
      ensures ok ==> oram.contents == old(oram.contents)[id := value]
      ensures oram.batches == old(oram.batches)
    {
      hide Oram.Valid;
      assert generate(id) == oram.position(id);
      ok := oram.WriteBox(id, value, generate(id));
    }

    /** incrementUpdtCnt and the other counters; a new keyword gets its first ones. */
    method NextCounters(keyword: string) returns (slot: int, src: int, last: int)
      requires keyword in updtCnt <==> keyword in srchCnt
      requires keyword in updtCnt <==> keyword in latest
      modifies this`updtCnt, this`srchCnt, this`latest
      ensures slot == CountOr(old(updtCnt), keyword, 0) + 1
      ensures src == CountOr(old(srchCnt), keyword, 0) && last == CountOr(old(latest), keyword, 0)
      ensures updtCnt == old(updtCnt)[keyword := slot]
      ensures srchCnt == old(srchCnt)[keyword := src] && latest == old(latest)[keyword := last]
    {
      slot, src, last := 0, 0, 0;
      if keyword !in updtCnt {
        updtCnt := updtCnt[keyword := 1];
        latest := latest[keyword := 0];
        srchCnt := srchCnt[keyword := 0];
      } else {
        slot := updtCnt[keyword];
        updtCnt := updtCnt[keyword := slot + 1];
        src := srchCnt[keyword];
        last := latest[keyword];
      }
      slot := slot + 1;
    }

    /** The access counter of the slot, and the largest one of the keyword. */
    method NextAccess(keyword: string, slot: int) returns (acc: int)
      requires CountOr(access, keyword, 1) >= 1
      modifies this`access
      ensures acc == NextAcc(updt, keyword, slot)
      ensures access == old(access)[keyword := Larger(acc, CountOr(old(access), keyword, 1))]
    {
      var accessCnt := 1;
      if keyword !in access { access := access[keyword := 1]; } else { accessCnt := access[keyword]; }
      acc := 1;
      if BySlot(keyword, slot) in updt {
        acc := updt[BySlot(keyword, slot)].acc + 1;
        if acc > accessCnt {
          accessCnt := acc;
          access := access[keyword := accessCnt];
        }
      }
    }

    /** The box of the new id and, when the slot has no box in this epoch yet,
        the forwarding record. */
    method StoreBox(keyword: string, slot: int, src: int, acc: int, ind: int, last: int) returns (ok: bool)
      requires oram.Valid() && Placed() && slot >= 1 && keyword in latest && latest[keyword] == last
      modifies this`latest, oram
      ensures oram.Valid() && (ok <==> old(oram.budget) >= BoxCost(last < slot, acc))
      ensures ok ==> oram.budget == old(oram.budget) - BoxCost(last < slot, acc)
      ensures ok ==> latest == old(latest)[keyword := NextLatest(last, slot)]
      ensures ok ==> oram.contents == Pushed(old(oram.contents), keyword, slot, src, acc, ind, last < slot)
      ensures oram.batches == old(oram.batches)
    {
      hide Oram.Valid, Scheme.Placed;
      ok := Write(Full(slot, src, acc, keyword), Ind(ind));
      if !ok { return; }
      if last < slot {
        latest := latest[keyword := last + 1];
        if acc > 1 {
          ok := Write(Full(slot, src, 1, keyword), At(acc));
        }
      }
    }

    /** Completes if and only if the boxes to write are within the budget; the source
        throws in the middle otherwise. */
    method Insert(keyword: string, ind: int) returns (ok: bool)
      requires Valid()
      modifies this, oram
      ensures ok <==> old(oram.budget) >= PutCost(old(Counters()), keyword, ind)
      ensures ok ==> Valid() && spec == SpecInsert(old(spec), keyword, ind)
      ensures ok ==> Counters() == AfterPut(old(Counters()), keyword, ind)
      ensures ok ==> oram.budget == old(oram.budget) - PutCost(old(Counters()), keyword, ind)
      ensures oram.Valid()
      ensures oram.batches == old(oram.batches)
    {
      hide Invariant, Oram.Valid, SpecInsert, Scheme.Placed, NoBare, AfterPut, PutCost, Inserted;
      DeadEntry(View(), spec, keyword, ind);
      PutCounts(View(), spec, keyword, ind);
      if ById(keyword, ind) !in updt || updt[ById(keyword, ind)].first == -1 {
        InsertKeeps(View(), spec, keyword, ind);
        ok := InsertNew(keyword, ind);
        if ok { spec := SpecInsert(spec, keyword, ind); }
      } else {
        InsertLive(Counters(), keyword, ind);
        ok := true;
      }
    }

    /** Insertion of an id that is not live. */
    method InsertNew(keyword: string, ind: int) returns (ok: bool)
      requires Valid()
      modifies this, oram
      ensures oram.Valid() && spec == old(spec) && (ok <==> old(oram.budget) >= NewCost(old(View()), keyword))
      ensures ok ==> View() == Inserted(old(View()), keyword, ind)
      ensures ok ==> oram.budget == old(oram.budget) - NewCost(old(View()), keyword)
      ensures oram.batches == old(oram.batches)
    {
      hide Invariant, Oram.Valid, Scheme.Placed, CountOr, NextAcc, Larger, NextLatest, Pushed, BoxCost, Inserted,
           NewCost;
      CountersKnown(View(), spec, keyword);
      InsertedParts(View(), keyword, ind);
      var slot, src, last, acc := InsertEntries(keyword, ind);
      ok := StoreBox(keyword, slot, src, acc, ind, last);
      if ok { lastInd := lastInd[keyword := ind]; }
    }

    /** The counters of a new id and its two entries. */
    method InsertEntries(keyword: string, ind: int) returns (slot: int, src: int, last: int, acc: int)
      requires keyword in updtCnt <==> keyword in srchCnt
      requires keyword in updtCnt <==> keyword in latest
      requires CountOr(access, keyword, 1) >= 1
      modifies this`updtCnt, this`srchCnt, this`latest, this`access, this`updt
      ensures slot == CountOr(old(updtCnt), keyword, 0) + 1 && acc == NextAcc(old(updt), keyword, slot)
      ensures src == CountOr(old(srchCnt), keyword, 0) && last == CountOr(old(latest), keyword, 0)
      ensures updtCnt == old(updtCnt)[keyword := slot]
      ensures srchCnt == old(srchCnt)[keyword := src] && latest == old(latest)[keyword := last]
      ensures access == old(access)[keyword := Larger(acc, CountOr(old(access), keyword, 1))]
      ensures updt == old(updt)[ById(keyword, ind) := Pair(slot, acc)][BySlot(keyword, slot) := Pair(ind, acc)]
    {
      hide CountOr, NextAcc, Larger;
      slot, src, last := NextCounters(keyword);
      acc := NextAccess(keyword, slot);
      updt := updt[ById(keyword, ind) := Pair(slot, acc)];
      updt := updt[BySlot(keyword, slot) := Pair(ind, acc)];
    }

    /** Not known, which the source answers by an exception, for an id never inserted;
        otherwise completes if and only if the box to write is within the budget. */
    method Remove(keyword: string, ind: int) returns (known: bool, ok: bool)
      requires Valid()
      modifies this, oram
      ensures known <==> keyword in old(spec) && ind in old(spec)[keyword].ever
      ensures ok <==> old(oram.budget) >= DropCost(old(Counters()), keyword, ind)
      ensures ok ==> Valid() && spec == SpecRemove(old(spec), keyword, ind)
      ensures ok ==> Counters() == AfterDrop(old(Counters()), keyword, ind)
      ensures ok ==> oram.budget == old(oram.budget) - DropCost(old(Counters()), keyword, ind)
      ensures oram.Valid()
      ensures oram.batches == old(oram.batches)
    {
      hide Invariant, Oram.Valid, SpecRemove, Removed, Scheme.Placed, AfterDrop, DropCost;
      DeadEntry(View(), spec, keyword, ind);
      DropCounts(View(), spec, keyword, ind);
      RemoveNothing(Counters(), keyword, ind);
      if ById(keyword, ind) !in updt {
        return false, true;
      }
      known, ok := true, true;
      if updt[ById(keyword, ind)].first > 0 {
        RemoveKeeps(View(), spec, keyword, ind);
        ok := RemoveLive(keyword, ind);
        if ok { spec := SpecRemove(spec, keyword, ind); }
      }
    }

    /** Removal of a live id. */
    method RemoveLive(keyword: string, ind: int) returns (ok: bool)
      requires Valid() && keyword in spec && ind in spec[keyword].ids
      requires ById(keyword, ind) in updt && keyword in updtCnt && keyword in srchCnt && keyword in access
      requires updt[ById(keyword, ind)].first >= 1
      modifies this, oram
      ensures oram.Valid() && spec == old(spec) && (ok <==> old(oram.budget) >= RemoveCost(old(View()), keyword, ind))
      ensures ok ==> View() == Removed(old(View()), keyword, ind)
      ensures ok ==> oram.budget == old(oram.budget) - RemoveCost(old(View()), keyword, ind)
      ensures oram.batches == old(oram.batches)
    {
      hide Invariant, Oram.Valid, Scheme.Placed;
      RemoveShape(View(), spec, keyword, ind);
      ok := true;
      var slot, acc := updt[ById(keyword, ind)].first, updt[ById(keyword, ind)].acc;
      updt := updt[ById(keyword, ind) := Pair(-1, acc + 1)];
      var count := updtCnt[keyword];
      updtCnt := updtCnt[keyword := count - 1];
      count := count - 1;
      if count > 0 {
        if count + 1 != slot {
          ok := MoveLast(keyword, slot, acc + 1, lastInd[keyword]);
          if !ok { return; }
        }
        lastInd := lastInd[keyword := updt[BySlot(keyword, count)].first];
      } else {
        lastInd := lastInd - {keyword};
      }
    }

    /** The id of the last slot takes over a slot under its next access counter. */
    method MoveLast(keyword: string, slot: int, acc: int, last: int) returns (ok: bool)
      requires oram.Valid() && Placed() && slot >= 1 && keyword in access && keyword in srchCnt
      modifies this`access, this`updt, oram
      ensures oram.Valid() && (ok <==> old(oram.budget) >= 1) && (ok ==> oram.budget == old(oram.budget) - 1)
      ensures access == if acc > old(access)[keyword] then old(access)[keyword := acc] else old(access)
      ensures ok ==> oram.contents == old(oram.contents)[Full(slot, srchCnt[keyword], acc, keyword) := Ind(last)]
      ensures ok ==>
        updt == old(updt)[ById(keyword, last) := Pair(slot, acc)][BySlot(keyword, slot) := Pair(last, acc)]
      ensures oram.batches == old(oram.batches)
    {
      hide Oram.Valid;
      if acc > access[keyword] { access := access[keyword := acc]; }
      ok := Write(Full(slot, srchCnt[keyword], acc, keyword), Ind(last));
      if !ok { return; }
      updt := updt[ById(keyword, last) := Pair(slot, acc)];
      updt := updt[BySlot(keyword, slot) := Pair(last, acc)];
    }

    /** The next reads: one for every slot still searching. */
    method Queries(keyword: string, src: int, probes: seq<Probe>) returns (queries: seq<(Bid, int)>)
      ensures |queries| == Pending(probes, |probes|)
      ensures forall i :: 0 <= i < |probes| ==> QueryAt(queries, keyword, src, probes, i)
      ensures forall t :: 0 <= t < |queries| ==> queries[t].0.Full? && queries[t].1 == generate(queries[t].0)
    {
      hide QueryAt, Pending;
      queries := [];
      PendingNone(probes);
      for i := 0 to |probes|
        invariant |queries| == Pending(probes, i)
        invariant forall j :: 0 <= j < i ==> QueryAt(queries, keyword, src, probes, j)
        invariant forall t :: 0 <= t < |queries| ==> queries[t].0.Full? && queries[t].1 == generate(queries[t].0)
      {
        PendingStep(probes, i);
        ghost var before := queries;
        if !probes[i].found {
          var id := Full(i + 1, src, probes[i].cur, keyword);
          queries := queries + [(id, generate(id))];
        }
        forall j | 0 <= j <= i ensures QueryAt(queries, keyword, src, probes, j) {
          QueryGrows(before, queries, keyword, src, probes, i, j);
        }
      }
    }

    /** The boxes to write back for a slot that is settled. */
    method Reissue(keyword: string, src: int, slot: int, p: Probe, items: seq<(Bid, Value, int)>)
      returns (items': seq<(Bid, Value, int)>)
      requires slot >= 1 && p.lastId.Ind? && forall t :: 0 <= t < |items| ==> ItemOk(generate, items[t])
      ensures forall t :: 0 <= t < |items'| ==> ItemOk(generate, items'[t])
      ensures |items'| == |items| + BoxCost(true, p.lastAcc)
      ensures forall b ::
                PutAll(b, items') == Pushed(PutAll(b, items), keyword, slot, src + 1, p.lastAcc, p.lastId.ind, true)
    {
      var id := Full(slot, src + 1, p.lastAcc, keyword);
      items' := items + [(id, p.lastId, generate(id))];
      assert items'[..|items|] == items;
      if p.lastAcc > 1 {
        var first := Full(slot, src + 1, 1, keyword);
        ghost var one := items';
        items' := items' + [(first, At(p.lastAcc), generate(first))];
        assert items'[..|one|] == one;
      }
    }

    /** One round of the lock-step search: every unfinished slot takes its answer. */
    method Round(keyword: string, src: int, ids: seq<Value>, first: bool, probes0: seq<Probe>, result0: seq<int>,
                 items0: seq<(Bid, Value, int)>,
                 ghost k: Slots, ghost access: int, ghost rounds: nat, ghost boxes: map<Bid, Value>)
      returns (probes: seq<Probe>, result: seq<int>, items: seq<(Bid, Value, int)>)
      requires Progress(boxes, keyword, src, k, access, probes0, result0, items0, first, rounds, 0)
      requires forall j :: 0 <= j < |k.ids| ==> SlotReady(boxes, keyword, src, k, access, j)
      requires |ids| == Pending(probes0, |probes0|)
      requires forall j :: 0 <= j < |probes0| ==> AnswerAt(boxes, keyword, src, probes0, ids, j)
      requires forall t :: 0 <= t < |items0| ==> ItemOk(generate, items0[t])
      ensures Progress(boxes, keyword, src, k, access, probes, result, items, first, rounds, |probes0|)
      ensures |probes| == |probes0|
      ensures forall t :: 0 <= t < |items| ==> ItemOk(generate, items[t])
      ensures |ids| > 0 ==> rounds + 1 <= CeilLog2(access) + 4
    {
      hide Cells, Ranged, CeilLog2, SlotProgress, FirstStep, NextStep, PutAll, Pushed, Progress, Pending;
      PendingNone(probes0);
      ProgressShape(boxes, keyword, src, k, access, probes0, result0, items0, first, rounds, 0);
      probes, result, items := probes0, result0, items0;
      var next := 0;
      for i := 0 to |probes0|
        invariant |probes| == |probes0| && forall j :: i <= j < |probes| ==> probes[j] == probes0[j]
        invariant next == Pending(probes0, i)
        invariant Progress(boxes, keyword, src, k, access, probes, result, items, first, rounds, i)
        invariant forall t :: 0 <= t < |items| ==> ItemOk(generate, items[t])
        invariant next > 0 ==> rounds + 1 <= CeilLog2(access) + 4
      {
        assert SlotReady(boxes, keyword, src, k, access, i) && AnswerAt(boxes, keyword, src, probes0, ids, i);
        ProgressAt(boxes, keyword, src, k, access, probes, result, items, first, rounds, i);
        PendingStep(probes0, i);
        if !probes[i].found {
          var id := ids[next];
          next := next + 1;
          ghost var g := Cells(boxes, keyword, i + 1, src);
          SlotStep(g, k.acc[i], access, probes[i], first, rounds);
          var p := if first then FirstStep(probes[i], id) else NextStep(probes[i], id);
          if p.found {
            var more := Reissue(keyword, src, i + 1, p, items);
            ProgressFound(boxes, keyword, src, k, access, probes, result, items, first, rounds, i, p, more);
            result := result + [p.lastId.ind];
            items := more;
          } else {
            ProgressStep(boxes, keyword, src, k, access, probes, result, items, first, rounds, i, p);
          }
          probes := probes[i := p];
        } else {
          ProgressSkip(boxes, keyword, src, k, access, probes, result, items, first, rounds, i);
        }
      }
    }

    /** All rounds: read the boxes the slots ask for until every slot is settled. */
    method LockStep(keyword: string, n: nat, accessCnt: int, src: int, ghost k: Slots)
      returns (result: seq<int>, items: seq<(Bid, Value, int)>, rounds: nat, ghost done: set<int>)
      requires oram.Valid() && Placed() && NoBare(oram.contents)
      requires n == |k.ids| <= |k.acc| && accessCnt >= 1
      requires forall j :: 0 <= j < n ==> SlotReady(oram.contents, keyword, src, k, accessCnt, j)
      requires forall s, t, a :: t > src ==> Full(s, t, a, keyword) !in oram.contents
      modifies oram`stash, oram`viewmap, oram`buckets, oram`view, oram`batches
      ensures oram.Valid() && oram.batches == old(oram.batches) + rounds
      ensures multiset(result) == multiset(k.ids) && |result| == n && |items| == SearchCost(k)
      ensures forall t :: 0 <= t < |items| ==> ItemOk(generate, items[t])
      ensures Rebuilt(oram.contents, PutAll(oram.contents, items), keyword, src + 1, k, done) && AllSlots(done, n)
      ensures rounds <= CeilLog2(accessCnt) + 4
    {
      hide Progress, Oram.Valid, SlotReady, CeilLog2, QueryAt, AnswerAt, Rebuilt, PutAll, ValueOf, Begin, ItemOk,
           Pending, DoneSet, AllSlots;
      ghost var boxes := oram.contents;
      var probes := seq(n, _ => Begin(accessCnt));
      result, items, rounds := [], [], 0;
      ProgressBegins(boxes, keyword, src, k, accessCnt, probes);
      var first, foundAll := true, false;
      while !foundAll
        invariant oram.Valid() && |probes| == n && rounds <= CeilLog2(accessCnt) + 4
        invariant oram.batches == old(oram.batches) + rounds
        invariant Progress(boxes, keyword, src, k, accessCnt, probes, result, items, first, rounds, 0)
        invariant forall t :: 0 <= t < |items| ==> ItemOk(generate, items[t])
        invariant foundAll ==> forall i :: 0 <= i < n ==> probes[i].found
        decreases !foundAll, CeilLog2(accessCnt) + 4 - rounds
      {
        var queries := Queries(keyword, src, probes);
        foundAll := queries == [];
        if foundAll {
          PendingZero(probes, n);
        } else {
          forall t | 0 <= t < |queries|
            ensures 0 <= queries[t].1 < Pow2(oram.depth) && queries[t].1 == oram.position(queries[t].0) {
            assert generate(queries[t].0) == oram.position(queries[t].0);
          }
          var ids := oram.BatchRead(queries);
          forall t | 0 <= t < |queries| ensures ids[t] == ValueOf(boxes, queries[t].0) {
            assert Bare(queries[t].1) !in boxes;
          }
          forall i | 0 <= i < n ensures AnswerAt(boxes, keyword, src, probes, ids, i) {
            AnswersMatch(boxes, keyword, src, probes, queries, ids, i);
          }
          probes, result, items := Round(keyword, src, ids, first, probes, result, items, k, accessCnt, rounds, boxes);
          NextRound(boxes, keyword, src, k, accessCnt, probes, result, items, first, rounds);
          first := false;
          rounds := rounds + 1;
        }
      }
      ProgressEnds(boxes, keyword, src, k, accessCnt, probes, result, items, first, rounds);
      done := DoneSet(probes);
    }

    ghost predicate TurnOk(id: Bid, pos: int) {
      pos == oram.position(id) && 0 <= pos < Pow2(oram.depth)
    }

    lemma TurnsOk(items: seq<(Bid, Value, int)>)
      requires forall t :: 0 <= t < |items| ==> TurnOk(items[t].0, items[t].2)
      ensures oram.Placed(Turns(items))
    {
      forall t | 0 <= t < |items| ensures TurnOk(Turns(items)[t].0, Turns(items)[t].1) {
        assert TurnOk(items[t].0, items[t].2);
      }
    }

    /** Not known, which the source answers by an exception, for a keyword never
        inserted. Otherwise every live id exactly once, within ceil(log2 Access) + 4
        batch reads, if and only if the boxes to write back are within the budget. */
    method Search(keyword: string) returns (known: bool, ok: bool, result: seq<int>, rounds: nat)
      requires Valid()
      modifies this, oram
      ensures known <==> keyword in old(spec)
      ensures ok <==> old(oram.budget) >= QueryCost(old(Counters()), keyword)
      ensures ok ==> Valid() && spec == old(spec) && Counters() == AfterQuery(old(Counters()), keyword)
      ensures ok ==> oram.budget == old(oram.budget) - QueryCost(old(Counters()), keyword)
      ensures ok && known ==>
        multiset(result) == multiset(spec[keyword].ids) && keyword in old(access) && old(access)[keyword] >= 1
      ensures ok && known ==> rounds <= CeilLog2(old(access)[keyword]) + 4
      ensures oram.Valid() && oram.batches == old(oram.batches) + rounds
    {
      hide Invariant, Oram.Valid, NoBare, SlotReady, Rebuilt, PutAll, AllSlots, CeilLog2, SearchCost;
      ghost var before := View();
      CountersKnown(before, spec, keyword);
      if keyword !in updtCnt {
        return false, true, [], 0;
      }
      known := true;
      SearchStarts(before, spec, keyword);
      var n, accessCnt, src := updtCnt[keyword], access[keyword], srchCnt[keyword];
      srchCnt := srchCnt[keyword := src + 1];
      var items;
      ghost var done;
      result, items, rounds, done := LockStep(keyword, n, accessCnt, src, spec[keyword]);
      SearchKeeps(before, spec, keyword, PutAll(before.boxes, items), done);
      forall t | 0 <= t < |items| ensures TurnOk(items[t].0, items[t].2) && !Null(items[t].0) {
        assert ItemOk(generate, items[t]) && generate(items[t].0) == oram.position(items[t].0);
      }
      TurnsOk(items);
      var written := oram.BatchWrite(items);
      ok := written == |items|;
      if !ok { return; }
      assert items[..written] == items;
      latest := latest[keyword := |result|];
      assert View() == Searched(before, keyword, PutAll(before.boxes, items), n);
    }
  }

  lemma {:induction false} PendingZero(probes: seq<Probe>, n: nat)
    requires n <= |probes| && Pending(probes, n) == 0
    ensures forall i :: 0 <= i < n ==> probes[i].found
  {
    if n > 0 { PendingZero(probes, n - 1); }
  }

  /** A finished round is the start of the next one. */
  lemma NextRound(boxes: map<Bid, Value>, w: string, src: int, k: Slots, access: int,
                  probes: seq<Probe>, result: seq<int>, items: seq<(Bid, Value, int)>, first: bool, rounds: nat)
    requires Progress(boxes, w, src, k, access, probes, result, items, first, rounds, |probes|)
    ensures Progress(boxes, w, src, k, access, probes, result, items, false, rounds + 1, 0)
  {
    hide Cells, Rebuilt, PutAll, SlotProgress;
    forall j | 0 <= j < |probes|
      ensures SlotProgress(Cells(boxes, w, j + 1, src), k.acc[j], access, probes[j], false, rounds + 1) {
      assert !(first && j >= |probes|);
    }
  }

  lemma ProgressBegins(boxes: map<Bid, Value>, w: string, src: int, k: Slots, access: int, probes: seq<Probe>)
    requires |probes| == |k.ids| <= |k.acc| && access >= 1
    requires forall j :: 0 <= j < |probes| ==> probes[j] == Begin(access)
    requires forall s, t, a :: t > src ==> Full(s, t, a, w) !in boxes
    ensures Progress(boxes, w, src, k, access, probes, [], [], true, 0, 0)
  {
    hide Cells, Rebuilt;
    FoundIdsAll(probes, k.ids, |k.ids|);
    FoundBoxesAll(probes, k.acc, |k.ids|);
    RebuiltStart(boxes, w, src, k);
    assert DoneSet(probes) == {};
  }

  lemma ProgressEnds(boxes: map<Bid, Value>, w: string, src: int, k: Slots, access: int,
                     probes: seq<Probe>, result: seq<int>, items: seq<(Bid, Value, int)>, first: bool, rounds: nat)
    requires Progress(boxes, w, src, k, access, probes, result, items, first, rounds, 0)
    requires forall i :: 0 <= i < |probes| ==> probes[i].found
    ensures multiset(result) == multiset(k.ids) && |result| == |k.ids| && |items| == SearchCost(k)
    ensures Rebuilt(boxes, PutAll(boxes, items), w, src + 1, k, DoneSet(probes)) && AllSlots(DoneSet(probes), |k.ids|)
  {
    hide Cells, Rebuilt, PutAll, SlotProgress;
    FoundIdsAll(probes, k.ids, |k.ids|);
    FoundBoxesAll(probes, k.acc, |k.ids|);
    assert k.ids[..|k.ids|] == k.ids;
    assert |multiset(result)| == |multiset(k.ids)|;
  }

  /** The state of a keyword as a search of it needs it. */
  lemma SearchStarts(s: State, sp: Spec, w: string)
    requires Invariant(s, sp) && w in sp
    ensures w in s.updtCnt && w in s.srchCnt && w in s.access
    ensures var k, access, src := sp[w], s.access[w], s.srchCnt[w];
            && |k.ids| <= |k.acc| && access >= 1
            && (forall j :: 0 <= j < |k.ids| ==> SlotReady(s.boxes, w, src, k, access, j))
            && (forall s', t, a :: t > src ==> Full(s', t, a, w) !in s.boxes)
  {
    hide Ranged, Cells;
    assert KeyOk(s, sp, w);
    var k := sp[w];
    forall j | 0 <= j < |k.ids| ensures SlotReady(s.boxes, w, s.srchCnt[w], k, s.access[w], j) {
      assert SlotRow(s.updt, w, k, s.access[w], j);
      assert SlotBoxes(s.boxes, w, s.srchCnt[w], k, j);
    }
  }

  lemma AnswersMatch(boxes: map<Bid, Value>, w: string, src: int, probes: seq<Probe>, queries: seq<(Bid, int)>,
                     ids: seq<Value>, i: nat)
    requires i < |probes| && QueryAt(queries, w, src, probes, i) && |ids| == |queries|
    requires forall t :: 0 <= t < |queries| ==> ids[t] == ValueOf(boxes, queries[t].0)
    ensures AnswerAt(boxes, w, src, probes, ids, i)
  {
  }

  lemma PendingNone(probes: seq<Probe>)
    ensures Pending(probes, 0) == 0
  {
  }

  lemma PendingStep(probes: seq<Probe>, i: nat)
    requires i < |probes|
    ensures Pending(probes, i + 1) == Pending(probes, i) + if probes[i].found then 0 else 1
  {
  }

  /** The read of slot i + 1 is in the batch, after those of earlier slots. */
  ghost predicate QueryAt(queries: seq<(Bid, int)>, w: string, src: int, probes: seq<Probe>, i: nat)
    requires i < |probes|
  {
    !probes[i].found ==>
      Pending(probes, i) < |queries| && queries[Pending(probes, i)].0 == Full(i + 1, src, probes[i].cur, w)
  }

  lemma QueryGrows(before: seq<(Bid, int)>, queries: seq<(Bid, int)>, w: string, src: int, probes: seq<Probe>, i: nat,
                   j: nat)
    requires j <= i < |probes| && |before| == Pending(probes, i) && before <= queries
    requires j < i ==> QueryAt(before, w, src, probes, j)
    requires !probes[i].found ==> |queries| == |before| + 1 && queries[|before|].0 == Full(i + 1, src, probes[i].cur, w)
    ensures QueryAt(queries, w, src, probes, j)
  {
  }

  /** The answer for slot i + 1 is the content of the box it asked for. */
  ghost predicate AnswerAt(boxes: map<Bid, Value>, w: string, src: int, probes: seq<Probe>, ids: seq<Value>, i: nat)
    requires i < |probes|
  {
    !probes[i].found ==>
      Pending(probes, i) < |ids| && ids[Pending(probes, i)] == Cells(boxes, w, i + 1, src)(probes[i].cur)
  }

  lemma ProgressShape(boxes: map<Bid, Value>, w: string, src: int, k: Slots, access: int,
                      probes: seq<Probe>, result: seq<int>, items: seq<(Bid, Value, int)>, first: bool, rounds: nat,
                      i: nat)
    requires Progress(boxes, w, src, k, access, probes, result, items, first, rounds, i)
    ensures |probes| == |k.ids| <= |k.acc| && access >= 1
  {
  }

  lemma ProgressAt(boxes: map<Bid, Value>, w: string, src: int, k: Slots, access: int,
                   probes: seq<Probe>, result: seq<int>, items: seq<(Bid, Value, int)>, first: bool, rounds: nat,
                   i: nat)
    requires Progress(boxes, w, src, k, access, probes, result, items, first, rounds, i) && i < |probes|
    ensures access >= 1 && i < |k.acc|
    ensures SlotProgress(Cells(boxes, w, i + 1, src), k.acc[i], access, probes[i], first, rounds)
  {
    hide Cells, Rebuilt, PutAll, SlotProgress;
  }

  /** A live slot as the search finds it. */
  ghost predicate SlotReady(boxes: map<Bid, Value>, w: string, src: int, k: Slots, access: int, j: nat) {
    && j < |k.ids| && j < |k.acc| && 1 <= k.acc[j] <= access
    && Ranged(Cells(boxes, w, j + 1, src), k.acc[j])
    && Cells(boxes, w, j + 1, src)(k.acc[j]) == Ind(k.ids[j])
  }

  lemma ProgressSkip(boxes: map<Bid, Value>, w: string, src: int, k: Slots, access: int,
                     probes: seq<Probe>, result: seq<int>, items: seq<(Bid, Value, int)>, first: bool, rounds: nat,
                     i: nat)
    requires Progress(boxes, w, src, k, access, probes, result, items, first, rounds, i) && i < |probes|
    requires probes[i].found
    ensures Progress(boxes, w, src, k, access, probes, result, items, first, rounds, i + 1)
  {
    hide Cells, Rebuilt, PutAll, DoneSet;
    forall j | 0 <= j < |probes| ensures
        SlotProgress(Cells(boxes, w, j + 1, src), k.acc[j], access, probes[j], first && j >= i + 1,
                     if j < i + 1 then rounds + 1 else rounds) {
      assert SlotProgress(Cells(boxes, w, j + 1, src), k.acc[j], access, probes[j], first && j >= i,
                          if j < i then rounds + 1 else rounds);
    }
  }

  lemma ProgressStep(boxes: map<Bid, Value>, w: string, src: int, k: Slots, access: int,
                     probes: seq<Probe>, result: seq<int>, items: seq<(Bid, Value, int)>, first: bool, rounds: nat,
                     i: nat, p: Probe)
    requires Progress(boxes, w, src, k, access, probes, result, items, first, rounds, i) && i < |probes|
    requires !probes[i].found && !p.found
    requires SlotProgress(Cells(boxes, w, i + 1, src), k.acc[i], access, p, false, rounds + 1)
    ensures Progress(boxes, w, src, k, access, probes[i := p], result, items, first, rounds, i + 1)
  {
    hide Cells, Rebuilt, PutAll, SlotProgress;
    FoundIdsFrame(probes, probes[i := p], k.ids, |k.ids|);
    FoundBoxesFrame(probes, probes[i := p], k.acc, |k.ids|);
    assert DoneSet(probes[i := p]) == DoneSet(probes);
    forall j | 0 <= j < |probes| ensures
        SlotProgress(Cells(boxes, w, j + 1, src), k.acc[j], access, probes[i := p][j], first && j >= i + 1,
                     if j < i + 1 then rounds + 1 else rounds) {
      assert SlotProgress(Cells(boxes, w, j + 1, src), k.acc[j], access, probes[j], first && j >= i,
                          if j < i then rounds + 1 else rounds);
    }
  }

  lemma DoneSetAdd(probes: seq<Probe>, i: nat, p: Probe)
    requires i < |probes| && p.found
    ensures DoneSet(probes[i := p]) == DoneSet(probes) + {i}
  {
  }

  lemma ProgressFound(boxes: map<Bid, Value>, w: string, src: int, k: Slots, access: int,
                      probes: seq<Probe>, result: seq<int>, items: seq<(Bid, Value, int)>, first: bool, rounds: nat,
                      i: nat, p: Probe,
                      more: seq<(Bid, Value, int)>)
    requires Progress(boxes, w, src, k, access, probes, result, items, first, rounds, i) && i < |probes|
    requires !probes[i].found && p.found
    requires SlotProgress(Cells(boxes, w, i + 1, src), k.acc[i], access, p, false, rounds + 1)
    requires p.lastAcc == k.acc[i] >= 1 && p.lastId == Ind(k.ids[i])
    requires |more| == |items| + BoxCost(true, p.lastAcc)
    requires PutAll(boxes, more) == Pushed(PutAll(boxes, items), w, i + 1, src + 1, p.lastAcc, p.lastId.ind, true)
    ensures Progress(boxes, w, src, k, access, probes[i := p], result + [p.lastId.ind], more, first, rounds, i + 1)
  {
    hide Cells, Rebuilt, PutAll, SlotProgress, Pushed;
    FoundIdsAdd(probes, p, k.ids, i, |k.ids|);
    FoundBoxesAdd(probes, p, k.acc, i, |k.ids|);
    RebuiltStep(boxes, PutAll(boxes, items), w, src + 1, k, DoneSet(probes), i);
    DoneSetAdd(probes, i, p);
    hide DoneSet;
    forall j | 0 <= j < |probes| ensures
        SlotProgress(Cells(boxes, w, j + 1, src), k.acc[j], access, probes[i := p][j], first && j >= i + 1,
                     if j < i + 1 then rounds + 1 else rounds) {
      assert SlotProgress(Cells(boxes, w, j + 1, src), k.acc[j], access, probes[j], first && j >= i,
                          if j < i then rounds + 1 else rounds);
    }
  }

  lemma InsertedParts(s: State, w: string, ind: int)
    ensures var slot, src, last := CountOr(s.updtCnt, w, 0) + 1, CountOr(s.srchCnt, w, 0), CountOr(s.latest, w, 0);
            var acc := NextAcc(s.updt, w, slot);
            && NewCost(s, w) == BoxCost(last < slot, acc)
            && Inserted(s, w, ind) ==
               State(s.updt[ById(w, ind) := Pair(slot, acc)][BySlot(w, slot) := Pair(ind, acc)],
                     s.updtCnt[w := slot], s.srchCnt[w := src],
                     s.access[w := Larger(acc, CountOr(s.access, w, 1))],
                     s.lastInd[w := ind],
                     s.latest[w := last][w := NextLatest(last, slot)],
                     Pushed(s.boxes, w, slot, src, acc, ind, last < slot))
  {
    hide CountOr, NextAcc, Larger, NextLatest, Pushed, BoxCost;
  }

  lemma InsertLive(c: Counters, w: string, ind: int)
    requires w in c.spec && ind in c.spec[w].ids
    ensures SpecInsert(c.spec, w, ind) == c.spec && AfterPut(c, w, ind) == c && PutCost(c, w, ind) == 0
  {
  }

  lemma RemoveNothing(c: Counters, w: string, ind: int)
    ensures w !in c.spec || ind !in c.spec[w].ids ==>
      SpecRemove(c.spec, w, ind) == c.spec && AfterDrop(c, w, ind) == c && DropCost(c, w, ind) == 0
  {
  }

  /** Removing a live id: the last slot that remains has its entry. */
  lemma RemoveShape(s: State, sp: Spec, w: string, ind: int)
    requires Invariant(s, sp) && w in sp && ind in sp[w].ids
    ensures w in s.updtCnt && w in s.lastInd && ById(w, ind) in s.updt && s.updtCnt[w] >= 1
    ensures s.updtCnt[w] > 1 ==> BySlot(w, s.updtCnt[w] - 1) in RemovedUpdt(s, w, ind)
  {
    hide BoxesOk, RemovedUpdt;
    assert KeyOk(s, sp, w);
    assert |sp[w].ids| >= 1;
    if s.updtCnt[w] > 1 {
      assert SlotRow(s.updt, w, sp[w], s.access[w], s.updtCnt[w] - 2);
      UpdtFrame(s, w, ind);
    }
  }

  lemma CountersKnown(s: State, sp: Spec, w: string)
    requires Invariant(s, sp)
    ensures w in sp <==> w in s.updtCnt
    ensures w in s.updtCnt <==> w in s.srchCnt
    ensures w in s.updtCnt <==> w in s.latest
    ensures w in s.updtCnt <==> w in s.access
    ensures w in s.updtCnt ==> s.updtCnt[w] == |sp[w].ids|
    ensures CountOr(s.updtCnt, w, 0) >= 0 && CountOr(s.access, w, 1) >= 1
    ensures w in sp && sp[w].ids != [] ==> w in s.lastInd && s.lastInd[w] == sp[w].ids[|sp[w].ids| - 1]
    ensures forall x :: x in s.boxes ==> x.Full? && x.slot >= 1
    ensures NoBare(s.boxes)
    ensures w in s.access ==> s.access[w] >= 1
  {
    hide BoxesOk, SlotRow, Distinct;
    assert KeyOk(s, sp, w);
  }
}

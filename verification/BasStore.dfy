/** The remote tier of the de-amortized index: sets held by pointer, handed
    over from one slot to another by sharing the pointer and then replacing the
    old one, and the client's flags that stand in for the sizes. The heap is
    explicit, so that a deleted set is gone for every slot that still holds it. */
module BasStore {
  import opened Records
  import opened RecordSets

  /** Instance 0, 1, 2, 3 is OLDEST, OLDER, OLD, NEW; index is the level. */
  datatype Slot = Slot(instance: nat, index: nat)

  predicate InRange(s: Slot, levels: nat) {
    s.instance < 4 && s.index < levels
  }

  ghost predicate Complete(data: Pointers, levels: nat) {
    forall s :: s in data <==> InRange(s, levels)
  }

  type Pointers = map<Slot, nat>
  type Heap = map<nat, RecordSet>

  /** Every slot holds a set that has not been deleted. */
  ghost predicate NoneDangles(data: Pointers, heap: Heap) {
    forall s :: s in data ==> data[s] in heap
  }

  /** No two slots hold the same set. */
  ghost predicate Separate(data: Pointers) {
    forall s, t :: s in data && t in data && s != t ==> data[s] != data[t]
  }

  ghost predicate Stored(data: Pointers, heap: Heap, next: nat) {
    && NoneDangles(data, heap) && Separate(data)
    && (forall p :: p in heap ==> p < next && heap[p].WellFormed())
  }

  /** What the slots hold. */
  ghost function Sets(data: Pointers, heap: Heap): map<Slot, RecordSet>
    requires NoneDangles(data, heap)
  {
    map s | s in data :: heap[data[s]]
  }

  /** new EachSet() in a slot. */
  lemma RenewKeeps(data: Pointers, heap: Heap, next: nat, s: Slot)
    requires Stored(data, heap, next) && s in data
    ensures Stored(data[s := next], heap[next := Empty], next + 1)
    ensures Sets(data[s := next], heap[next := Empty]) == Sets(data, heap)[s := Empty]
  {
    hide RecordSet.WellFormed;
    EmptyWellFormed();
    forall t | t in data ensures data[t] != next { assert data[t] in heap; }
  }

  lemma EmptyWellFormed()
    ensures Empty.WellFormed()
  {
  }

  /** Delete the target's set, share the origin's, give the origin a new one:
      the set has moved and nothing is shared or lost. */
  lemma HandOverKeeps(data: Pointers, heap: Heap, next: nat, from: Slot, to: Slot)
    requires Stored(data, heap, next) && from in data && to in data && from != to
    ensures var data', heap' := data[to := data[from]][from := next], (heap - {data[to]})[next := Empty];
            && Stored(data', heap', next + 1)
            && Sets(data', heap') == Sets(data, heap)[to := Sets(data, heap)[from]][from := Empty]
  {
    HandOverStored(data, heap, next, from, to);
    HandOverSets(data, heap, next, from, to);
  }

  lemma HandOverStored(data: Pointers, heap: Heap, next: nat, from: Slot, to: Slot)
    requires Stored(data, heap, next) && from in data && to in data && from != to
    ensures Stored(data[to := data[from]][from := next], (heap - {data[to]})[next := Empty], next + 1)
  {
    hide RecordSet.WellFormed;
    EmptyWellFormed();
    forall t | t in data ensures data[t] != next { assert data[t] in heap; }
  }

  lemma HandOverSets(data: Pointers, heap: Heap, next: nat, from: Slot, to: Slot)
    requires NoneDangles(data, heap) && Separate(data) && (forall p :: p in heap ==> p < next)
    requires from in data && to in data && from != to
    requires NoneDangles(data[to := data[from]][from := next], (heap - {data[to]})[next := Empty])
    ensures Sets(data[to := data[from]][from := next], (heap - {data[to]})[next := Empty])
         == Sets(data, heap)[to := Sets(data, heap)[from]][from := Empty]
  {
    var data', heap' := data[to := data[from]][from := next], (heap - {data[to]})[next := Empty];
    var a, b := Sets(data', heap'), Sets(data, heap)[to := Sets(data, heap)[from]][from := Empty];
    assert a.Keys == b.Keys;
    forall s | s in a ensures a[s] == b[s] {
      assert data[s] in heap;
    }
  }

  class Server {
    const levels: nat
    var data: Pointers
    var heap: Heap
    var next: nat

    ghost predicate Valid()
      reads this
    {
      Complete(data, levels) && Stored(data, heap, next)
    }

    ghost function Now(): map<Slot, RecordSet>
      requires Valid()
      reads this
    {
      Sets(data, heap)
    }

    constructor (levels: nat)
      ensures Valid() && this.levels == levels
      ensures forall s :: s in data ==> Now()[s] == Empty
    {
      this.levels := levels;
      data, heap, next := map[], map[], 0;
      new;
      hide Stored;
      StartEmpty();
      hide Filled, AllNew;
      FilledNothing(levels);
      for j := 0 to 4
        invariant Filled(data, levels, j, 0) && Stored(data, heap, next) && AllNew(heap)
      {
        for i := 0 to levels
          invariant Filled(data, levels, j, i) && Stored(data, heap, next) && AllNew(heap)
        {
          FilledStep(data, levels, j, i, next);
          AddSlot(data, heap, next, Slot(j, i));
          heap := heap[next := Empty];
          data := data[Slot(j, i) := next];
          next := next + 1;
        }
        FilledRow(data, levels, j);
      }
      FilledAll(data, levels);
      AllEmpty(data, heap, next);
    }

    /** clear: the slot gets a new set. */
    method Clear(s: Slot)
      requires s in data
      modifies this
      ensures data == old(data)[s := old(next)] && heap == old(heap)[old(next) := Empty] && next == old(next) + 1
    {
      heap := heap[next := Empty];
      data := data[s := next];
      next := next + 1;
    }

    /** copy: the target's set is deleted, and both slots hold the origin's. */
    method Copy(from: Slot, to: Slot)
      requires from in data && to in data && data[to] in heap
      modifies this`data, this`heap
      ensures data == old(data)[to := old(data)[from]] && heap == old(heap) - {old(data)[to]}
    {
      heap := heap - {data[to]};
      data := data[to := data[from]];
    }

    method Size(s: Slot) returns (n: nat)
      requires s in data && data[s] in heap
      ensures n == heap[data[s]].Size()
    {
      n := heap[data[s]].Size();
    }

    /** get: step an iterator to the position. */
    method Get(s: Slot, pos: nat) returns (x: Record)
      requires Valid() && s in data && pos < |Now()[s].order|
      ensures pos < |Now()[s].Listing()| && x == Now()[s].Listing()[pos]
    {
      x := heap[data[s]].ElementAt(pos);
    }

    /** search: probe label 1, 2, ... until one is absent. */
    method Search(s: Slot, w: string) returns (found: seq<Record>)
      requires Valid() && s in data
      ensures found == Probe(Now()[s].at, w, 1)
    {
      found := ProbeAll(heap[data[s]], w, 1);
    }

    /** add: only this slot changes, because no other holds its set. */
    method Add(s: Slot, key: Label, x: Record)
      requires Valid() && s in data
      modifies this`heap
      ensures Valid() && Now().Keys == old(Now()).Keys
      ensures Now()[s].at == old(Now())[s].at[key := x]
      ensures forall t :: t in data && t != s ==> Now()[t] == old(Now())[t]
    {
      hide RecordSet.WellFormed;
      var r := Put(heap[data[s]], key, x);
      heap := heap[data[s] := r];
    }
  }

  lemma StartEmpty()
    ensures Stored(map[], map[], 0)
  {
  }

  /** The slots of the rows before j and the first i of row j. */
  ghost predicate Filled(data: Pointers, levels: nat, j: nat, i: nat) {
    forall s :: s in data <==> (s.instance < j && s.index < levels) || (s.instance == j && s.index < i)
  }

  ghost predicate AllNew(heap: Heap) {
    forall p :: p in heap ==> heap[p] == Empty
  }

  lemma FilledNothing(levels: nat)
    ensures Filled(map[], levels, 0, 0) && AllNew(map[])
  {
  }

  lemma FilledStep(data: Pointers, levels: nat, j: nat, i: nat, p: nat)
    requires Filled(data, levels, j, i)
    ensures Slot(j, i) !in data && Filled(data[Slot(j, i) := p], levels, j, i + 1)
  {
  }

  lemma FilledRow(data: Pointers, levels: nat, j: nat)
    requires Filled(data, levels, j, levels)
    ensures Filled(data, levels, j + 1, 0)
  {
  }

  lemma FilledAll(data: Pointers, levels: nat)
    requires Filled(data, levels, 4, 0)
    ensures Complete(data, levels)
  {
  }

  lemma AllEmpty(data: Pointers, heap: Heap, next: nat)
    requires Stored(data, heap, next) && AllNew(heap)
    ensures forall s :: s in data ==> Sets(data, heap)[s] == Empty
  {
    hide RecordSet.WellFormed;
  }

  lemma AddSlot(data: Pointers, heap: Heap, next: nat, s: Slot)
    requires Stored(data, heap, next) && s !in data
    ensures Stored(data[s := next], heap[next := Empty], next + 1)
    ensures AllNew(heap) ==> AllNew(heap[next := Empty])
  {
    hide RecordSet.WellFormed;
    EmptyWellFormed();
    forall t | t in data ensures data[t] != next { assert data[t] in heap; }
  }

  class Client {
    const server: Server
    var exist: map<Slot, bool>

    /** The flag of a set that is not under construction says whether it holds
        anything; the flag of NEW is never raised. */
    ghost predicate Valid()
      reads this, server
    {
      server.Valid() && FlagsOk(exist, server.Now())
    }

    constructor (levels: nat)
      ensures Valid() && fresh(server) && server.levels == levels
      ensures forall s :: s in server.data ==> server.Now()[s] == Empty
    {
      var remote := new Server(levels);
      server := remote;
      exist := map s | s in remote.data :: false;
    }

    /** destry. */
    method Destroy(s: Slot)
      requires Valid() && s in server.data
      modifies this, server
      ensures Valid() && server.Now() == old(server.Now())[s := Empty]
    {
      hide NoneDangles, Separate, Sets, FlagsOk, Complete, RecordSet.WellFormed, Stored;
      StoredParts(server.data, server.heap, server.next);
      RenewKeeps(server.data, server.heap, server.next, s);
      StillComplete(server.data, server.levels, s, server.next);
      ClearFlag(exist, server.Now(), s);
      server.Clear(s);
      StoredParts(server.data, server.heap, server.next);
      exist := exist[s := false];
    }

    /** copy followed by destry of the origin hands a set over: the target has
        it, the origin is empty, no other slot changed, and no set is shared. */
    method HandOver(from: Slot, to: Slot)
      requires Valid() && from in server.data && to in server.data && from != to && to.instance < 3
      requires to in exist && !exist[to]
      modifies this, server
      ensures Valid() && server.Now() == old(server.Now())[to := old(server.Now())[from]][from := Empty]
    {
      hide Separate, FlagsOk, Complete, RecordSet.WellFormed, Stored;
      StoredParts(server.data, server.heap, server.next);
      HandOverKeeps(server.data, server.heap, server.next, from, to);
      StillComplete(server.data, server.levels, to, server.data[from]);
      StillComplete(server.data[to := server.data[from]], server.levels, from, server.next);
      ghost var moved := server.Now()[from];
      MoveFlag(exist, server.Now(), from, to);
      StillThere(server.data, server.heap, server.next, from, to);
      server.Copy(from, to);
      var n := server.Size(to);
      SizeOfEmpty(moved);
      if n > 0 {
        exist := exist[to := true];
      }
      server.Clear(from);
      exist := exist[from := false];
      StoredParts(server.data, server.heap, server.next);
    }

    /** The end of a merge: OLDEST and OLDER are dropped and OLD moves to OLDEST. */
    method Shift(i: nat)
      requires Valid() && i < server.levels
      modifies this, server
      ensures Valid()
      ensures server.Now() ==
              old(server.Now())[Slot(0, i) := old(server.Now())[Slot(2, i)]][Slot(1, i) := Empty][Slot(2, i) := Empty]
    {
      hide Complete, Stored, FlagsOk, Sets, Server.Valid;
      SlotsThere(i);
      Destroy(Slot(0, i));
      SlotsThere(i);
      Destroy(Slot(1, i));
      SlotsThere(i);
      HandOver(Slot(2, i), Slot(0, i));
    }

    lemma SlotsThere(i: nat)
      requires Valid() && i < server.levels
      ensures forall j: nat :: j < 4 ==> Slot(j, i) in server.data && Slot(j, i) in exist && Slot(j, i) in server.Now()
      ensures forall j: nat :: j < 3 ==> (exist[Slot(j, i)] <==> server.Now()[Slot(j, i)].at != map[])
    {
      hide RecordSet.WellFormed, Separate;
      forall j: nat | j < 4 ensures Slot(j, i) in server.data { assert InRange(Slot(j, i), server.levels); }
    }

    /** A completed NEW goes to the first of the three slots that is free; with none
        free it stays where it is. */
    method Place(i: nat) returns (j: nat)
      requires Valid() && i < server.levels
      modifies this, server
      ensures Valid() && FirstFree(old(server.Now()), i, j) && Slot(3, i) in old(server.Now())
      ensures server.Now() ==
              if j == 3 then old(server.Now())
              else old(server.Now())[Slot(j, i) := old(server.Now())[Slot(3, i)]][Slot(3, i) := Empty]
    {
      hide Complete, Stored, FlagsOk, Sets, Server.Valid;
      SlotsThere(i);
      if !exist[Slot(0, i)] {
        j := 0;
      } else if !exist[Slot(1, i)] {
        j := 1;
      } else if !exist[Slot(2, i)] {
        j := 2;
      } else {
        return 3;
      }
      HandOver(Slot(3, i), Slot(j, i));
    }
  }

  lemma StoredParts(data: Pointers, heap: Heap, next: nat)
    requires Stored(data, heap, next)
    ensures NoneDangles(data, heap) && Sets(data, heap).Keys == data.Keys
    ensures forall s :: s in data ==> data[s] in heap && Sets(data, heap)[s] == heap[data[s]]
  {
    hide RecordSet.WellFormed;
  }

  lemma StillComplete(data: Pointers, levels: nat, s: Slot, p: nat)
    requires Complete(data, levels) && s in data
    ensures Complete(data[s := p], levels)
  {
  }

  lemma StillThere(data: Pointers, heap: Heap, next: nat, from: Slot, to: Slot)
    requires Stored(data, heap, next) && from in data && to in data && from != to
    ensures data[from] != data[to] && data[from] in heap && data[to] in heap
  {
    hide RecordSet.WellFormed;
  }

  lemma SizeOfEmpty(s: RecordSet)
    ensures s.Size() > 0 <==> s.at != map[]
  {
    if s.at != map[] { assert |s.at.Keys| > 0; }
  }

  lemma ClearFlag(exist: map<Slot, bool>, sets: map<Slot, RecordSet>, s: Slot)
    requires FlagsOk(exist, sets) && s in sets
    ensures FlagsOk(exist[s := false], sets[s := Empty])
  {
  }

  lemma MoveFlag(exist: map<Slot, bool>, sets: map<Slot, RecordSet>, from: Slot, to: Slot)
    requires FlagsOk(exist, sets) && from in sets && to in sets && from != to && to.instance < 3
    requires to in exist && !exist[to]
    ensures var sets' := sets[to := sets[from]][from := Empty];
            FlagsOk(if sets[from].at != map[] then exist[to := true][from := false] else exist[from := false], sets')
  {
  }

  /** The first of the three slots that holds nothing, or 3. */
  ghost predicate FirstFree(sets: map<Slot, RecordSet>, i: nat, j: nat) {
    && j <= 3 && (j < 3 ==> Slot(j, i) in sets && sets[Slot(j, i)].at == map[])
    && forall k: nat :: k < j ==> Slot(k, i) in sets && sets[Slot(k, i)].at != map[]
  }

  ghost predicate FlagsOk(exist: map<Slot, bool>, sets: map<Slot, RecordSet>) {
    && exist.Keys == sets.Keys
    && (forall s :: s in exist && s.instance < 3 ==> (exist[s] <==> sets[s].at != map[]))
    && (forall s :: s in exist && s.instance == 3 ==> !exist[s])
  }
}

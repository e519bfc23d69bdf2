/** SDd, the de-amortized log-structured index: every level owns the sets
    OLDEST, OLDER, OLD and NEW, and each update copies one record per active
    level into the NEW set above it. */
module DeAmortized {
  import opened Powers
  import opened Collections
  import opened Records
  import opened Requests
  import opened RecordSets
  import opened DeAmortizedSchedule

  /** data[0..3][i], cnt[i] and the keyword counters of level i. */
  datatype Level = Level(oldest: RecordSet, older: RecordSet, latest: RecordSet, building: RecordSet,
                         cnt: nat, counters: map<(string, int), nat>)

  const EmptyLevel := Level(Empty, Empty, Empty, Empty, 0, map[])

  /** The k-th slice of 2^j consecutive updates. */
  ghost function Chunk(h: seq<Record>, j: nat, k: nat): seq<Record> {
    if Start(j, k + 1) <= |h| then h[Start(j, k)..Start(j, k + 1)] else []
  }

  lemma ChunkSize(h: seq<Record>, j: nat, k: nat, p: nat)
    requires k < p && Start(j, p) <= |h|
    ensures |Chunk(h, j, k)| == Pow2(j) && Start(j, k + 1) <= |h|
  {
    StartMonotone(j, k + 1, p);
  }

  lemma ChunkJoins(h: seq<Record>, j: nat, k: nat)
    requires Start(j, 2 * k + 2) <= |h|
    ensures Start(j + 1, k + 1) <= |h|
    ensures Chunk(h, j + 1, k) == Chunk(h, j, 2 * k) + Chunk(h, j, 2 * k + 1)
  {
    hide Start;
    StartHalves(j, k);
    StartHalves(j, k + 1);
    StartMonotone(j, 2 * k, 2 * k + 1);
    StartMonotone(j, 2 * k + 1, 2 * k + 2);
    var a, b, c := Start(j, 2 * k), Start(j, 2 * k + 1), Start(j, 2 * k + 2);
    assert 2 * (k + 1) == 2 * k + 2;
    assert h[a..c] == h[a..b] + h[b..c];
  }

  /** A slot holds its slice when that slice has been produced, else it is empty. */
  ghost predicate Slot(s: RecordSet, h: seq<Record>, j: nat, k: nat, p: nat) {
    if k < p then Holds(s, multiset(Chunk(h, j, k))) else s == Empty
  }

  /** Level j after c merges took two sets each and p sets were put in. */
  ghost predicate Slots(v: Level, h: seq<Record>, j: nat, c: nat, p: nat) {
    && 2 * c <= p && Start(j, p) <= |h|
    && Slot(v.oldest, h, j, 2 * c, p)
    && Slot(v.older, h, j, 2 * c + 1, p)
    && Slot(v.latest, h, j, 2 * c + 2, p)
  }

  /** The keyword counters agree with the labels handed out in NEW during this
      merge cycle, and no counter belongs to a later cycle. */
  ghost predicate Counters(m: map<(string, int), nat>, building: RecordSet, cycle: int) {
    && (forall key :: key in m ==> key.1 <= cycle)
    && (forall w :: (w, cycle) in m <==> Probe(building.at, w, 1) != [])
    && (forall w :: (w, cycle) in m ==> m[(w, cycle)] == |Probe(building.at, w, 1)|)
  }

  /** What the merge into level i reads, in reading order. */
  ghost function Source(lower: Level): seq<Record>
    requires lower.oldest.WellFormed() && lower.older.WellFormed()
  {
    lower.oldest.Listing() + lower.older.Listing()
  }

  /** The merge into level i at clock t: NEW is exactly the first cnt records of
      OLDEST followed by OLDER of the level below. */
  ghost predicate Merging(upper: Level, lower: Level, i: nat, t: nat) {
    && upper.cnt == Progress(i, t)
    && (upper.cnt == 0 ==> upper.building == Empty)
    && (upper.cnt > 0 ==>
          && lower.oldest.WellFormed() && lower.older.WellFormed()
          && lower.oldest != Empty && lower.older != Empty
          && upper.cnt <= |Source(lower)|
          && Stores(1, upper.building, Source(lower)[..upper.cnt]))
    && Counters(upper.counters, upper.building, t / Pow2(i) - 1)
  }

  lemma EmptyHolds()
    ensures Empty.WellFormed() && Stores(1, Empty, []) && Empty.Size() == 0
    ensures forall w :: Probe(Empty.at, w, 1) == []
  {
  }

  lemma SlotFull(s: RecordSet, h: seq<Record>, j: nat, k: nat, p: nat)
    requires Slot(s, h, j, k, p) && Start(j, p) <= |h|
    ensures s.WellFormed()
    ensures s.Size() > 0 <==> k < p
    ensures s != Empty <==> k < p
    ensures k < p ==> |s.order| == Pow2(j) && multiset(s.Listing()) == multiset(Chunk(h, j, k))
  {
    EmptyHolds();
    if k < p {
      ChunkSize(h, j, k, p);
      HoldsListing(s, multiset(Chunk(h, j, k)));
    }
  }

  /** The two sets a merge reads are full, and joined they are the slice above. */
  lemma SourceFull(lower: Level, h: seq<Record>, i: nat, c: nat, p: nat)
    requires i >= 1 && Slots(lower, h, i - 1, c, p) && p - 2 * c >= 2
    ensures lower.oldest.WellFormed() && lower.older.WellFormed()
    ensures |lower.oldest.order| == |lower.older.order| == Pow2(i - 1)
    ensures |Source(lower)| == Pow2(i)
    ensures multiset(Source(lower)) == multiset(Chunk(h, i, c))
    ensures Start(i, c + 1) <= |h|
  {
    hide Holds, RecordSet.WellFormed, Chunk;
    SlotFull(lower.oldest, h, i - 1, 2 * c, p);
    SlotFull(lower.older, h, i - 1, 2 * c + 1, p);
    ChunkSize(h, i - 1, 2 * c + 1, p);
    StartMonotone(i - 1, 2 * c + 2, p);
    ChunkJoins(h, i - 1, c);
  }

  lemma CountersNext(m: map<(string, int), nat>, building: RecordSet, recs: seq<Record>, cycle: int, x: Record)
    requires Counters(m, building, cycle) && Stores(1, building, recs)
    ensures var key := (x.keyword, cycle);
            (if key in m then m[key] + 1 else 1) == 1 + |Filter(recs, x.keyword)|
  {
    ProbeIsFilter(1, recs, x.keyword);
  }

  lemma CountersStep(m: map<(string, int), nat>, building: RecordSet, recs: seq<Record>, cycle: int, x: Record,
                     building': RecordSet)
    requires Counters(m, building, cycle) && Stores(1, building, recs) && Stores(1, building', recs + [x])
    ensures var key := (x.keyword, cycle);
            var c := if key in m then m[key] + 1 else 1;
            Counters(m[key := c], building', cycle)
  {
    hide LabelAll, Probe, Filter, RecordSet.WellFormed;
    forall w
      ensures Probe(building'.at, w, 1) == Probe(building.at, w, 1) + if w == x.keyword then [x] else [] {
      ProbeGrows(recs, x, w);
    }
  }

  lemma ProbeGrows(recs: seq<Record>, x: Record, w: string)
    ensures var before, after := Probe(LabelAll(1, recs), w, 1), Probe(LabelAll(1, recs + [x]), w, 1);
            after == if w == x.keyword then before + [x] else before
  {
    assert (recs + [x])[..|recs|] == recs;
    ProbeIsFilter(1, recs, w);
    ProbeIsFilter(1, recs + [x], w);
  }

  /** Filling the slot of the next slice brings every slot to the next count. */
  lemma SlotAfter(s: RecordSet, s': RecordSet, h: seq<Record>, j: nat, k: nat, p: nat)
    requires Slot(s, h, j, k, p)
    requires if k == p then Holds(s', multiset(Chunk(h, j, p))) else s' == s
    ensures Slot(s', h, j, k, p + 1)
  {
    hide Holds, Chunk;
  }

  lemma SlotsAfter(v: Level, v': Level, h: seq<Record>, j: nat, c: nat, p: nat)
    requires Slots(v, h, j, c, p) && Start(j, p + 1) <= |h|
    requires if p == 2 * c then Holds(v'.oldest, multiset(Chunk(h, j, p))) else v'.oldest == v.oldest
    requires if p == 2 * c + 1 then Holds(v'.older, multiset(Chunk(h, j, p))) else v'.older == v.older
    requires if p == 2 * c + 2 then Holds(v'.latest, multiset(Chunk(h, j, p))) else v'.latest == v.latest
    ensures Slots(v', h, j, c, p + 1)
  {
    hide Holds, Chunk, Slot, Start;
    SlotAfter(v.oldest, v'.oldest, h, j, 2 * c, p);
    SlotAfter(v.older, v'.older, h, j, 2 * c + 1, p);
    SlotAfter(v.latest, v'.latest, h, j, 2 * c + 2, p);
  }

  /** Which slots of a level are occupied. */
  lemma SlotSizes(v: Level, h: seq<Record>, j: nat, c: nat, p: nat)
    requires Slots(v, h, j, c, p)
    ensures v.oldest.WellFormed() && v.older.WellFormed() && v.latest.WellFormed()
    ensures v.oldest.Size() > 0 <==> p > 2 * c
    ensures v.older.Size() > 0 <==> p > 2 * c + 1
    ensures v.latest.Size() > 0 <==> p > 2 * c + 2
    ensures v.oldest != Empty <==> p > 2 * c
    ensures v.older != Empty <==> p > 2 * c + 1
    ensures v.latest != Empty <==> p > 2 * c + 2
  {
    hide Slot, Start, RecordSet.WellFormed;
    SlotFull(v.oldest, h, j, 2 * c, p);
    SlotFull(v.older, h, j, 2 * c + 1, p);
    SlotFull(v.latest, h, j, 2 * c + 2, p);
  }

  // ----- what holds of the levels at any time -----

  /** Every record is stored under its own keyword. */
  ghost predicate SetOk(s: RecordSet) {
    s.WellFormed() && forall key :: key in s.at ==> s.at[key].keyword == key.keyword
  }

  /** A searchable set of level j is empty or holds at least 2^j records. */
  ghost predicate SlotOk(s: RecordSet, j: nat) {
    SetOk(s) && (s.Size() == 0 || s.Size() >= Pow2(j))
  }

  ghost predicate LevelOk(v: Level, j: nat) {
    SlotOk(v.oldest, j) && SlotOk(v.older, j) && SlotOk(v.latest, j) && SetOk(v.building)
  }

  /** The records that search can reach in a level. */
  function Reachable(v: Level): nat {
    v.oldest.Size() + v.older.Size() + v.latest.Size()
  }

  lemma OrderSize(s: RecordSet)
    requires s.WellFormed()
    ensures |s.order| == s.Size() && (s.Size() == 0 <==> s == Empty)
  {
    assert |multiset(s.order)| == |multiset(s.at.Keys)|;
  }

  /** Put a completed set into the first empty slot of its level; with no slot
      empty it stays in NEW. */
  method Place(v: Level, ghost h: seq<Record>, ghost j: nat, ghost c: nat, ghost p: nat) returns (v': Level)
    requires LevelOk(v, j) && v.building.Size() == Pow2(j)
    ensures LevelOk(v', j) && Reachable(v') <= Reachable(v) + Pow2(j)
    ensures (v'.cnt, v'.counters) == (v.cnt, v.counters)
    ensures v.oldest != Empty ==> v'.oldest == v.oldest
    ensures v.older != Empty ==> v'.older == v.older
    ensures Complete(v, h, j, c, p) ==> Slots(v', h, j, c, p + 1)
    ensures Complete(v, h, j, c, p) && p - 2 * c < 3 ==> v'.building == Empty
    ensures Complete(v, h, j, c, p) && p - 2 * c == 3 ==> v' == v
  {
    hide LevelOk, SetOk, SlotOk, Complete, Slots, Reachable, Pow2, RecordSet.WellFormed;
    LevelSets(v, j);
    var moved := MoveInto(v.building);
    if v.oldest.Size() == 0 {
      v' := v.(oldest := moved, building := Empty);
    } else if v.older.Size() == 0 {
      v' := v.(older := moved, building := Empty);
    } else if v.latest.Size() == 0 {
      v' := v.(latest := moved, building := Empty);
    } else {
      v' := v;
    }
    PlacedOk(v, v', j, moved);
    if Complete(v, h, j, c, p) { PlaceFills(v, v', h, j, c, p, moved); }
  }

  /** The set goes to the first slot that holds nothing, if there is one. */
  ghost predicate Placed(v: Level, v': Level, moved: RecordSet) {
    v' == if v.oldest.Size() == 0 then v.(oldest := moved, building := Empty)
          else if v.older.Size() == 0 then v.(older := moved, building := Empty)
          else if v.latest.Size() == 0 then v.(latest := moved, building := Empty)
          else v
  }

  lemma LevelSets(v: Level, j: nat)
    requires LevelOk(v, j)
    ensures v.oldest.WellFormed() && v.older.WellFormed() && v.latest.WellFormed() && v.building.WellFormed()
    ensures v.oldest.Size() == 0 <==> v.oldest == Empty
    ensures v.older.Size() == 0 <==> v.older == Empty
    ensures v.latest.Size() == 0 <==> v.latest == Empty
    ensures v.oldest.Size() > 0 ==> v.oldest.Size() >= Pow2(j)
    ensures v.older.Size() > 0 ==> v.older.Size() >= Pow2(j)
  {
    hide RecordSet.WellFormed, Pow2;
    OrderSize(v.oldest);
    OrderSize(v.older);
    OrderSize(v.latest);
  }

  lemma PlacedOk(v: Level, v': Level, j: nat, moved: RecordSet)
    requires LevelOk(v, j) && v.building.Size() == Pow2(j) && Placed(v, v', moved)
    requires moved.WellFormed() && moved.at == v.building.at
    ensures LevelOk(v', j) && Reachable(v') <= Reachable(v) + Pow2(j)
  {
    hide Pow2, RecordSet.WellFormed;
    EmptyHolds();
  }

  lemma PlaceFills(v: Level, v': Level, h: seq<Record>, j: nat, c: nat, p: nat, moved: RecordSet)
    requires Complete(v, h, j, c, p) && Placed(v, v', moved)
    requires moved.WellFormed() && moved.at == v.building.at
    ensures Slots(v', h, j, c, p + 1)
    ensures p - 2 * c < 3 ==> v'.building == Empty
    ensures p - 2 * c == 3 ==> v' == v
  {
    hide Holds, RecordSet.WellFormed, Chunk, Slot, Start, Pow2;
    SlotSizes(v, h, j, c, p);
    HoldsMoved(v.building, multiset(Chunk(h, j, p)), moved);
    SlotsAfter(v, v', h, j, c, p);
  }

  /** NEW is the next slice of a level that has at most three. */
  ghost predicate Complete(v: Level, h: seq<Record>, j: nat, c: nat, p: nat) {
    && Slots(v, h, j, c, p) && p - 2 * c <= 3
    && Start(j, p + 1) <= |h| && Holds(v.building, multiset(Chunk(h, j, p)))
  }

  /** Drop the two merged sets and shift OLD down to OLDEST. */
  method Retire(v: Level, ghost h: seq<Record>, ghost j: nat, ghost c: nat, ghost p: nat) returns (v': Level)
    requires LevelOk(v, j)
    ensures LevelOk(v', j) && v'.oldest.at == v.latest.at && v'.older == v'.latest == Empty
    ensures (v'.building, v'.cnt, v'.counters) == (v.building, v.cnt, v.counters)
    ensures Slots(v, h, j, c, p) && p - 2 * c == 3 ==> Slots(v', h, j, c + 1, p) && v'.oldest != Empty
  {
    hide Holds, RecordSet.WellFormed, Chunk, Stores;
    EmptyHolds();
    var moved := MoveInto(v.latest);
    v' := v.(oldest := moved, older := Empty, latest := Empty);
    if Slots(v, h, j, c, p) && p - 2 * c == 3 {
      SlotFull(v.latest, h, j, 2 * c + 2, p);
      HoldsMoved(v.latest, multiset(Chunk(h, j, 2 * c + 2)), moved);
      SlotFull(v'.oldest, h, j, 2 * c + 2, p);
    }
  }

  /** The record at position cnt: first through OLDEST, then through OLDER. */
  method ReadNext(i: nat, cnt: nat, lower: Level) returns (x: Record)
    requires i >= 1 && lower.oldest.WellFormed() && lower.older.WellFormed()
    requires lower.oldest.Size() >= Pow2(i - 1) && lower.older.Size() >= Pow2(i - 1)
    ensures lower.oldest.Size() == lower.older.Size() == Pow2(i - 1) && cnt < Pow2(i) ==>
              cnt < |Source(lower)| && x == Source(lower)[cnt]
  {
    hide RecordSet.WellFormed;
    OrderSize(lower.oldest);
    OrderSize(lower.older);
    if cnt < Pow2(i - 1) {
      x := lower.oldest.ElementAt(cnt);
    } else {
      if cnt < Pow2(i) { DivModUnique(cnt, Pow2(i - 1), 1, cnt - Pow2(i - 1)); }
      x := lower.older.ElementAt(cnt % Pow2(i - 1));
    }
  }

  /** NEW is what a merge of two full sets has copied so far. */
  ghost predicate Copying(i: nat, upCnt: int, lower: Level, upper: Level) {
    && lower.oldest.WellFormed() && lower.older.WellFormed()
    && i >= 1 && lower.oldest.Size() == lower.older.Size() == Pow2(i - 1)
    && upper.cnt <= |Source(lower)| == Pow2(i) && Stores(1, upper.building, Source(lower)[..upper.cnt])
    && Counters(upper.counters, upper.building, upCnt)
  }

  /** Copy the next record of the merge into NEW under its next label. */
  method CopyOne(i: nat, upCnt: int, lower: Level, upper: Level) returns (upper': Level, last: string)
    requires i >= 1 && LevelOk(lower, i - 1) && lower.oldest.Size() > 0 && lower.older.Size() > 0
    requires SetOk(upper.building)
    ensures upper'.cnt == upper.cnt + 1 && SetOk(upper'.building)
    ensures (upper'.oldest, upper'.older, upper'.latest) == (upper.oldest, upper.older, upper.latest)
    ensures Copying(i, upCnt, lower, upper) && upper.cnt < Pow2(i) ==> Copying(i, upCnt, lower, upper')
  {
    hide *;
    LevelSets(lower, i - 1);
    SetParts(upper.building);
    var x := ReadNext(i, upper.cnt, lower);
    last := x.keyword;
    var key := (x.keyword, upCnt);
    var c := if key in upper.counters then upper.counters[key] + 1 else 1;
    var built := Put(upper.building, Label(x.keyword, c), x);
    upper' := upper.(cnt := upper.cnt + 1, counters := upper.counters[key := c], building := built);
    PutOk(upper.building, Label(x.keyword, c), x, built);
    if Copying(i, upCnt, lower, upper) && upper.cnt < Pow2(i) {
      CopyingNext(i, upCnt, lower, upper, x, built);
    }
  }

  lemma SetParts(s: RecordSet)
    requires SetOk(s)
    ensures s.WellFormed()
  {
  }

  lemma PutOk(s: RecordSet, key: Label, x: Record, r: RecordSet)
    requires SetOk(s) && r.WellFormed() && r.at == s.at[key := x] && x.keyword == key.keyword
    ensures SetOk(r)
  {
  }

  /** The record that comes next in a merge takes the next label of its keyword. */
  lemma CopyingNext(i: nat, upCnt: int, lower: Level, upper: Level, x: Record, built: RecordSet)
    requires Copying(i, upCnt, lower, upper) && upper.cnt < Pow2(i)
    requires lower.oldest.Size() == lower.older.Size() == Pow2(i - 1) && upper.cnt < Pow2(i) ==>
      upper.cnt < |Source(lower)| && x == Source(lower)[upper.cnt]
    requires var key := (x.keyword, upCnt);
             var c := if key in upper.counters then upper.counters[key] + 1 else 1;
             built.WellFormed() && built.at == upper.building.at[Label(x.keyword, c) := x]
    ensures var key := (x.keyword, upCnt);
            var c := if key in upper.counters then upper.counters[key] + 1 else 1;
            Copying(i, upCnt, lower, upper.(cnt := upper.cnt + 1, counters := upper.counters[key := c],
                                            building := built))
  {
    hide RecordSet.WellFormed, Counters, Pow2, LabelAll;
    ghost var recs := Source(lower)[..upper.cnt];
    assert Source(lower)[..upper.cnt + 1] == recs + [x];
    CountersNext(upper.counters, upper.building, recs, upCnt, x);
    StoresPut(1, upper.building, recs, x, built);
    CountersStep(upper.counters, upper.building, recs, upCnt, x, built);
  }

  lemma CountersRetired(m: map<(string, int), nat>, building: RecordSet, cycle: int, last: string)
    requires Counters(m, building, cycle)
    ensures Counters(m - {(last, cycle)}, Empty, cycle + 1)
  {
    EmptyHolds();
  }

  /** NEW of level i is the slice that its two sets below join to. */
  ghost predicate Joined(i: nat, upCnt: int, lower: Level, upper: Level, h: seq<Record>, p: nat, q: nat, c: nat) {
    && i >= 1 && q - 2 * p == 3 && Slots(lower, h, i - 1, p, q) && Complete(upper, h, i, c, p)
    && Counters(upper.counters, upper.building, upCnt)
  }

  /** NEW of level i is complete: retire what it was built from and place it. */
  method Finish(i: nat, upCnt: int, last: string, lower: Level, upper: Level,
                ghost h: seq<Record>, ghost p: nat, ghost q: nat, ghost c: nat)
    returns (lower': Level, upper': Level)
    requires i >= 1 && LevelOk(lower, i - 1) && LevelOk(upper, i) && upper.building.Size() == Pow2(i)
    requires lower.oldest.Size() > 0 && lower.older.Size() > 0
    ensures LevelOk(lower', i - 1) && LevelOk(upper', i)
    ensures Reachable(lower') + Reachable(upper') <= Reachable(lower) + Reachable(upper)
    ensures upper'.cnt == 0
    ensures (lower'.building, lower'.cnt, lower'.counters) == (lower.building, lower.cnt, lower.counters)
    ensures upper.oldest != Empty ==> upper'.oldest == upper.oldest
    ensures upper.older != Empty ==> upper'.older == upper.older
    ensures Joined(i, upCnt, lower, upper, h, p, q, c) ==>
      && Slots(lower', h, i - 1, p + 1, q) && Slots(upper', h, i, c, p + 1)
      && (p - 2 * c < 3 ==> upper'.building == Empty && Counters(upper'.counters, Empty, upCnt + 1))
      && (p - 2 * c == 3 ==> upper'.building == upper.building)
  {
    hide Holds, RecordSet.WellFormed, Chunk, Stores, Slot, Counters, Start, SetOk;
    if Joined(i, upCnt, lower, upper, h, p, q, c) {
      CountersRetired(upper.counters, upper.building, upCnt, last);
    }
    lower' := Retire(lower, h, i - 1, p, q);
    upper' := upper.(cnt := 0, counters := upper.counters - {(last, upCnt)});
    upper' := Place(upper', h, i, c, p);
  }

  /** At any clock tick the merge reads two full sets or is idle. */
  lemma MergeReads(upper: Level, lower: Level, h: seq<Record>, i: nat, t: nat)
    requires i >= 1 && t >= 2 && Slots(lower, h, i - 1, Produced(i, t), Produced(i - 1, t))
    requires Merging(upper, lower, i, t)
    ensures (lower.oldest.Size() > 0 && lower.older.Size() > 0) <==> t / Pow2(i) >= 2
    ensures t / Pow2(i) >= 2 ==>
              && lower.oldest.WellFormed() && lower.older.WellFormed()
              && |lower.oldest.order| == |lower.older.order| == Pow2(i - 1)
              && |Source(lower)| == Pow2(i)
              && multiset(Source(lower)) == multiset(Chunk(h, i, Produced(i, t)))
              && Start(i, Produced(i, t) + 1) <= |h|
              && lower.oldest != Empty && lower.older != Empty
              && upper.cnt < Pow2(i) && Stores(1, upper.building, Source(lower)[..upper.cnt])
  {
    hide Holds, RecordSet.WellFormed, Chunk, Slot, Counters, LabelAll, Start;
    ghost var p, q := Produced(i, t), Produced(i - 1, t);
    ScheduleStep(i, t);
    SlotFull(lower.oldest, h, i - 1, 2 * p, q);
    SlotFull(lower.older, h, i - 1, 2 * p + 1, q);
    EmptyHolds();
    if t / Pow2(i) >= 2 { SourceFull(lower, h, i, p, q); }
  }

  lemma MergeIdle(upper: Level, lower: Level, i: nat, t: nat)
    requires i >= 1 && t / Pow2(i) < 2 && Merging(upper, lower, i, t)
    ensures Merging(upper, lower, i, t + 1)
  {
    hide RecordSet.WellFormed, Stores;
    ScheduleStep(i, t);
    DivModStep(t + 1, Pow2(i));
  }

  /** Both levels stand for their slices at clock t, and level i has room. */
  ghost predicate Ready(i: nat, upCnt: int, lower: Level, upper: Level, h: seq<Record>, t: nat, c: nat) {
    && i >= 1 && t >= 2 && |h| == t - 2 && upCnt == t / Pow2(i) - 1
    && Slots(lower, h, i - 1, Produced(i, t), Produced(i - 1, t))
    && Slots(upper, h, i, c, Produced(i, t)) && Produced(i, t) - 2 * c <= 3
    && Merging(upper, lower, i, t)
  }

  /** One turn of the level loop: copy one record from level i - 1 into NEW of
      level i and, when NEW is complete, retire the two sets it was built from. */
  method MergeStep(i: nat, upCnt: int, lower: Level, upper: Level, ghost h: seq<Record>, ghost t: nat, ghost c: nat)
    returns (lower': Level, upper': Level)
    requires i >= 1 && LevelOk(lower, i - 1) && LevelOk(upper, i)
    ensures LevelOk(lower', i - 1) && LevelOk(upper', i)
    ensures Reachable(lower') + Reachable(upper') <= Reachable(lower) + Reachable(upper)
    ensures (lower'.building, lower'.cnt, lower'.counters) == (lower.building, lower.cnt, lower.counters)
    ensures upper.oldest != Empty ==> upper'.oldest == upper.oldest
    ensures upper.older != Empty ==> upper'.older == upper.older
    ensures Ready(i, upCnt, lower, upper, h, t, c) ==>
      && Slots(lower', h, i - 1, Produced(i, t + 1), Produced(i - 1, t))
      && Slots(upper', h, i, c, Produced(i, t + 1))
      && (Produced(i, t + 1) - 2 * c <= 3 ==> Merging(upper', lower', i, t + 1))
  {
    hide *;
    lower', upper' := lower, upper;
    LevelBuilds(upper, i);
    if Ready(i, upCnt, lower, upper, h, t, c) { StepReads(i, upCnt, lower, upper, h, t, c); }
    if lower.oldest.Size() > 0 && lower.older.Size() > 0 {
      var last;
      upper', last := CopyOne(i, upCnt, lower, upper);
      LevelBuilt(upper, upper', i);
      ghost var copied := upper';
      if upper'.building.Size() == Pow2(i) {
        if Ready(i, upCnt, lower, upper, h, t, c) { StepJoins(i, upCnt, lower, upper, copied, h, t, c); }
        lower', upper' := Finish(i, upCnt, last, lower, upper', h, Produced(i, t), Produced(i - 1, t), c);
        if Ready(i, upCnt, lower, upper, h, t, c) {
          StepFinished(i, upCnt, lower, upper, copied, lower', upper', h, t, c);
        }
      } else if Ready(i, upCnt, lower, upper, h, t, c) {
        StepGoesOn(i, upCnt, lower, upper, copied, h, t, c);
      }
    } else if Ready(i, upCnt, lower, upper, h, t, c) {
      StepIdles(i, upCnt, lower, upper, h, t, c);
    }
  }

  lemma LevelBuilds(v: Level, j: nat)
    requires LevelOk(v, j)
    ensures SetOk(v.building)
  {
  }

  lemma LevelBuilt(v: Level, v': Level, j: nat)
    requires LevelOk(v, j) && SetOk(v'.building) && (v'.oldest, v'.older, v'.latest) == (v.oldest, v.older, v.latest)
    ensures LevelOk(v', j) && Reachable(v') == Reachable(v)
  {
  }

  lemma StepReads(i: nat, upCnt: int, lower: Level, upper: Level, h: seq<Record>, t: nat, c: nat)
    requires Ready(i, upCnt, lower, upper, h, t, c)
    ensures (lower.oldest.Size() > 0 && lower.older.Size() > 0) <==> t / Pow2(i) >= 2
    ensures t / Pow2(i) >= 2 ==> Copying(i, upCnt, lower, upper) && upper.cnt < Pow2(i)
  {
    hide Holds, RecordSet.WellFormed, Chunk, Slot, Counters, Start, Pow2, LabelAll;
    MergeReads(upper, lower, h, i, t);
    if t / Pow2(i) >= 2 {
      OrderSize(lower.oldest);
      OrderSize(lower.older);
    }
  }

  lemma StepIdles(i: nat, upCnt: int, lower: Level, upper: Level, h: seq<Record>, t: nat, c: nat)
    requires Ready(i, upCnt, lower, upper, h, t, c) && t / Pow2(i) < 2
    ensures Slots(lower, h, i - 1, Produced(i, t + 1), Produced(i - 1, t))
    ensures Slots(upper, h, i, c, Produced(i, t + 1)) && Merging(upper, lower, i, t + 1)
  {
    hide Slots, Pow2, Merging;
    ScheduleStep(i, t);
    MergeIdle(upper, lower, i, t);
  }

  /** NEW is not complete yet. */
  lemma StepGoesOn(i: nat, upCnt: int, lower: Level, upper: Level, copied: Level, h: seq<Record>, t: nat, c: nat)
    requires Ready(i, upCnt, lower, upper, h, t, c) && t / Pow2(i) >= 2 && upper.cnt < Pow2(i)
    requires Copying(i, upCnt, lower, copied) && copied.cnt == upper.cnt + 1 && copied.building.Size() != Pow2(i)
    requires (copied.oldest, copied.older, copied.latest) == (upper.oldest, upper.older, upper.latest)
    ensures Slots(lower, h, i - 1, Produced(i, t + 1), Produced(i - 1, t))
    ensures Slots(copied, h, i, c, Produced(i, t + 1)) && Merging(copied, lower, i, t + 1)
  {
    hide Holds, RecordSet.WellFormed, Chunk, Slot, Counters, Start, Pow2, LabelAll;
    MergeReads(upper, lower, h, i, t);
    ScheduleStep(i, t);
    DivModStep(t + 1, Pow2(i));
    StoresHolds(copied.building, Source(lower)[..copied.cnt], copied.building);
  }

  /** NEW is complete: it is the slice that the two sets join to. */
  lemma StepJoins(i: nat, upCnt: int, lower: Level, upper: Level, copied: Level, h: seq<Record>, t: nat, c: nat)
    requires Ready(i, upCnt, lower, upper, h, t, c) && t / Pow2(i) >= 2 && upper.cnt < Pow2(i)
    requires Copying(i, upCnt, lower, copied) && copied.cnt == upper.cnt + 1 && copied.building.Size() == Pow2(i)
    requires (copied.oldest, copied.older, copied.latest) == (upper.oldest, upper.older, upper.latest)
    ensures Joined(i, upCnt, lower, copied, h, Produced(i, t), Produced(i - 1, t), c)
    ensures Produced(i, t + 1) == Produced(i, t) + 1
  {
    hide Holds, RecordSet.WellFormed, Chunk, Slot, Counters, Start, Pow2, LabelAll;
    MergeReads(upper, lower, h, i, t);
    ScheduleStep(i, t);
    DivModStep(t + 1, Pow2(i));
    StoresHolds(copied.building, Source(lower)[..copied.cnt], copied.building);
    assert Source(lower)[..copied.cnt] == Source(lower);
  }

  lemma StepFinished(i: nat, upCnt: int, lower: Level, upper: Level, copied: Level, lower': Level, upper': Level,
                     h: seq<Record>, t: nat, c: nat)
    requires Ready(i, upCnt, lower, upper, h, t, c) && t / Pow2(i) >= 2 && upper'.cnt == 0
    requires Produced(i, t + 1) == Produced(i, t) + 1
    requires var p := Produced(i, t);
      && Slots(lower', h, i - 1, p + 1, Produced(i - 1, t)) && Slots(upper', h, i, c, p + 1)
      && (p - 2 * c < 3 ==> upper'.building == Empty && Counters(upper'.counters, Empty, upCnt + 1))
    ensures Slots(lower', h, i - 1, Produced(i, t + 1), Produced(i - 1, t))
    ensures Slots(upper', h, i, c, Produced(i, t + 1))
    ensures Produced(i, t + 1) - 2 * c <= 3 ==> Merging(upper', lower', i, t + 1)
  {
    hide Holds, RecordSet.WellFormed, Chunk, Slots, Counters, Start, Pow2, LabelAll;
    ScheduleStep(i, t);
    DivModStep(t + 1, Pow2(i));
  }

  // ----- the whole index -----

  /** The clock value that level j has reached when the loop has done levels i and above. */
  function Tick(j: nat, i: nat, t: nat): nat {
    if j >= i then t + 1 else t
  }

  ghost predicate LevelReached(levels: seq<Level>, h: seq<Record>, t: nat, i: nat, j: nat)
    requires j < |levels|
  {
    Slots(levels[j], h, j, Consumed(|levels|, j, Tick(j + 1, i, t)), Produced(j, Tick(j, i, t)))
  }

  ghost predicate MergeReached(levels: seq<Level>, t: nat, i: nat, j: nat)
    requires 1 <= j < |levels|
  {
    j < |levels| - 1 || j < i || t + 1 < Capacity(|levels|) ==>
      Merging(levels[j], levels[j - 1], j, Tick(j, i, t))
  }

  /** The levels while an update moves the clock from t to t + 1 and the
      descending loop has finished levels i and above. */
  ghost predicate Midway(levels: seq<Level>, h: seq<Record>, t: nat, i: nat) {
    && |levels| >= 1
    && (forall j :: 0 <= j < |levels| ==> LevelReached(levels, h, t, i, j))
    && (forall j :: 1 <= j < |levels| ==> MergeReached(levels, t, i, j))
  }

  /** Between updates every level has reached the same clock. */
  ghost predicate Settled(levels: seq<Level>, h: seq<Record>) {
    && |levels| >= 1 && |h| + 2 < Capacity(|levels|)
    && Midway(levels, h, |h| + 2, |levels|)
    && levels[0].building == Empty
  }

  lemma MergingKept(upper: Level, lower: Level, lower': Level, i: nat, t: nat)
    requires Merging(upper, lower, i, t)
    requires lower.oldest != Empty ==> lower'.oldest == lower.oldest
    requires lower.older != Empty ==> lower'.older == lower.older
    ensures Merging(upper, lower', i, t)
  {
    hide RecordSet.WellFormed, Stores, Counters;
  }

  lemma MergingOwn(upper: Level, upper': Level, lower: Level, i: nat, t: nat)
    requires Merging(upper, lower, i, t)
    requires (upper'.building, upper'.cnt, upper'.counters) == (upper.building, upper.cnt, upper.counters)
    ensures Merging(upper', lower, i, t)
  {
    hide RecordSet.WellFormed, Stores, Counters;
  }

  /** At its turn level i has room for what the merge may complete. */
  lemma RoomBefore(l: nat, i: nat, t: nat)
    requires 1 <= i < l && t < Capacity(l)
    ensures Produced(i, t) - 2 * Consumed(l, i, t + 1) <= 3
    ensures i < l - 1 || t + 1 < Capacity(l) ==> Produced(i, t + 1) - 2 * Consumed(l, i, t + 1) <= 3
  {
    ScheduleStep(i, t);
    Occupancy(i, t + 1);
    TopFits(l, t);
    TopFits(l, t + 1);
  }

  lemma MidwayStep(levels: seq<Level>, h: seq<Record>, t: nat, i: nat, lower': Level, upper': Level)
    requires 1 <= i < |levels| && t < Capacity(|levels|) && Midway(levels, h, t, i + 1)
    requires Slots(lower', h, i - 1, Produced(i, t + 1), Produced(i - 1, t))
    requires Slots(upper', h, i, Consumed(|levels|, i, t + 1), Produced(i, t + 1))
    requires Produced(i, t + 1) - 2 * Consumed(|levels|, i, t + 1) <= 3 ==> Merging(upper', lower', i, t + 1)
    requires (lower'.building, lower'.cnt, lower'.counters) ==
             (levels[i - 1].building, levels[i - 1].cnt, levels[i - 1].counters)
    requires levels[i].oldest != Empty ==> upper'.oldest == levels[i].oldest
    requires levels[i].older != Empty ==> upper'.older == levels[i].older
    ensures Midway(levels[i - 1 := lower'][i := upper'], h, t, i)
  {
    hide Slots, Produced, Capacity, Merging;
    RoomBefore(|levels|, i, t);
    var after := levels[i - 1 := lower'][i := upper'];
    forall j | 0 <= j < |levels| ensures LevelReached(after, h, t, i, j) {
      assert LevelReached(levels, h, t, i + 1, j);
    }
    forall j | 1 <= j < |levels| ensures MergeReached(after, t, i, j) {
      assert MergeReached(levels, t, i + 1, j);
      if j == i + 1 {
        if Merging(levels[j], levels[i], j, t + 1) { MergingKept(levels[j], levels[i], upper', j, t + 1); }
      } else if j == i - 1 {
        MergingOwn(levels[j], lower', levels[j - 1], j, t);
      }
    }
  }

  lemma SlotExtends(s: RecordSet, h: seq<Record>, x: Record, j: nat, k: nat, p: nat)
    requires Slot(s, h, j, k, p) && Start(j, p) <= |h|
    ensures Slot(s, h + [x], j, k, p)
  {
    hide Holds;
    if k < p {
      ChunkSize(h, j, k, p);
      assert Chunk(h + [x], j, k) == Chunk(h, j, k);
    }
  }

  lemma SlotsExtend(v: Level, h: seq<Record>, x: Record, j: nat, c: nat, p: nat)
    requires Slots(v, h, j, c, p)
    ensures Slots(v, h + [x], j, c, p)
  {
    hide Slot, Start;
    SlotExtends(v.oldest, h, x, j, 2 * c, p);
    SlotExtends(v.older, h, x, j, 2 * c + 1, p);
    SlotExtends(v.latest, h, x, j, 2 * c + 2, p);
  }

  lemma NewRecordHolds(one: RecordSet, x: Record, h: seq<Record>)
    requires one.WellFormed() && one.at == map[Label(x.keyword, 1) := x]
    ensures Start(0, |h|) == |h| && Start(0, |h| + 1) == |h + [x]|
    ensures Holds(one, multiset(Chunk(h + [x], 0, |h|)))
  {
    StartZero(|h|);
    StartZero(|h| + 1);
    EmptyHolds();
    StoresPut(1, Empty, [], x, one);
    assert Chunk(h + [x], 0, |h|) == [] + [x];
  }

  /** The record of this update goes to level 0 under the label keyword-1. */
  method StoreNew(v: Level, x: Record, ghost h: seq<Record>, ghost c: nat) returns (v': Level, ghost moved: RecordSet)
    requires v.building == Empty && LevelOk(v, 0)
    ensures Took(v, v', x, moved)
    ensures v'.building == Empty && LevelOk(v', 0) && Reachable(v') <= Reachable(v) + 1
    ensures v.oldest != Empty ==> v'.oldest == v.oldest
    ensures v.older != Empty ==> v'.older == v.older
    ensures Slots(v, h, 0, c, |h|) && |h| - 2 * c < 3 ==> Slots(v', h + [x], 0, c, |h| + 1)
  {
    hide LevelOk, SlotOk, SetOk, Slots, Reachable, RecordSet.WellFormed;
    LevelSets(v, 0);
    var one := Put(v.building, Label(x.keyword, 1), x);
    if v.oldest.Size() == 0 {
      var first := MoveInto(one);
      v', moved := v.(oldest := first), first;
    } else if v.older.Size() == 0 {
      var second := MoveInto(one);
      v', moved := v.(older := second), second;
    } else {
      var third := PutIfAbsent(v.latest, Label(x.keyword, 1), x);
      v', moved := v.(latest := third), third;
    }
    NewRecordOk(v, v', x, moved);
    if Slots(v, h, 0, c, |h|) && |h| - 2 * c < 3 { NewRecordFills(v, v', x, h, c, moved); }
  }

  /** The set that the new record went to. */
  ghost predicate Took(v: Level, v': Level, x: Record, moved: RecordSet) {
    && moved.WellFormed()
    && var key := Label(x.keyword, 1);
    if v.oldest.Size() == 0 then v' == v.(oldest := moved) && moved.at == map[key := x]
    else if v.older.Size() == 0 then v' == v.(older := moved) && moved.at == map[key := x]
    else v' == v.(latest := moved) && moved.at == if key in v.latest.at then v.latest.at else v.latest.at[key := x]
  }

  lemma NewRecordOk(v: Level, v': Level, x: Record, moved: RecordSet)
    requires LevelOk(v, 0) && Took(v, v', x, moved)
    ensures LevelOk(v', 0) && Reachable(v') <= Reachable(v) + 1
  {
    hide RecordSet.WellFormed, SetOk;
    MovedOk(v, moved, x);
  }

  lemma PutSize(m: map<Label, Record>, key: Label, x: Record)
    ensures 1 <= |m[key := x]| && |m| <= |m[key := x]| <= |m| + 1
  {
    assert m[key := x].Keys == m.Keys + {key};
    assert |m[key := x]| == |m[key := x].Keys| && |m| == |m.Keys|;
  }

  lemma MovedOk(v: Level, moved: RecordSet, x: Record)
    requires SetOk(v.latest) && moved.WellFormed()
    requires var key := Label(x.keyword, 1);
             || moved.at == map[key := x] || moved.at == v.latest.at || moved.at == v.latest.at[key := x]
    ensures SetOk(moved) && (moved.at == map[Label(x.keyword, 1) := x] ==> moved.Size() == 1)
    ensures moved.at == v.latest.at[Label(x.keyword, 1) := x] ==>
      1 <= moved.Size() && v.latest.Size() <= moved.Size() <= v.latest.Size() + 1
  {
    hide RecordSet.WellFormed;
    PutSize(v.latest.at, Label(x.keyword, 1), x);
  }

  lemma NewRecordFills(v: Level, v': Level, x: Record, h: seq<Record>, c: nat, moved: RecordSet)
    requires Slots(v, h, 0, c, |h|) && |h| - 2 * c < 3
    requires LevelOk(v, 0) && Took(v, v', x, moved)
    ensures Slots(v', h + [x], 0, c, |h| + 1)
  {
    hide Holds, Chunk, RecordSet.WellFormed, Start, Slots, LevelOk, Reachable;
    SlotsExtend(v, h, x, 0, c, |h|);
    SlotSizes(v, h + [x], 0, c, |h|);
    SlotsLower(v, h, 0, c, |h|);
    LevelSets(v, 0);
    NewRecordHolds(moved, x, h);
    SlotsAfter(v, v', h + [x], 0, c, |h|);
  }

  lemma SlotsLower(v: Level, h: seq<Record>, j: nat, c: nat, p: nat)
    requires Slots(v, h, j, c, p)
    ensures 2 * c <= p
  {
  }

  // ----- conservation -----

  /** The records reachable through a set. */
  ghost function Stored(s: RecordSet): multiset<Record> {
    if s.WellFormed() then multiset(s.Listing()) else multiset{}
  }

  /** OLDEST, OLDER and OLD of the first n levels: everything search reads. */
  ghost function Searchable(levels: seq<Level>, n: nat): multiset<Record>
    requires n <= |levels|
  {
    if n == 0 then multiset{}
    else
      var v := levels[n - 1];
      Searchable(levels, n - 1) + (Stored(v.oldest) + Stored(v.older) + Stored(v.latest))
  }

  /** A slot stores the slice between two multiples of 2^j, or nothing. */
  lemma SlotSlice(s: RecordSet, h: seq<Record>, j: nat, k: nat, p: nat)
    requires Slot(s, h, j, k, p) && Start(j, p) <= |h|
    ensures k < p ==> Start(j, k) <= Start(j, k + 1) <= |h| && Stored(s) == multiset(h[Start(j, k)..Start(j, k + 1)])
    ensures k >= p ==> Stored(s) == multiset{}
  {
    hide Holds, RecordSet.WellFormed;
    SlotFull(s, h, j, k, p);
    EmptyHolds();
    if k < p {
      ChunkSize(h, j, k, p);
    } else {
      assert Empty.Listing() == [];
    }
  }

  lemma SliceJoins(h: seq<Record>, a: nat, b: nat, c: nat)
    requires a <= b <= c <= |h|
    ensures multiset(h[a..b]) + multiset(h[b..c]) == multiset(h[a..c])
  {
    assert h[a..c] == h[a..b] + h[b..c];
  }

  /** Together the three sets of a level store one contiguous slice of history. */
  lemma LevelSlice(v: Level, h: seq<Record>, j: nat, c: nat, p: nat)
    requires Slots(v, h, j, c, p)
    ensures var q := if p <= 2 * c + 3 then p else 2 * c + 3;
            && Start(j, 2 * c) <= Start(j, q) <= |h|
            && Stored(v.oldest) + Stored(v.older) + Stored(v.latest) == multiset(h[Start(j, 2 * c)..Start(j, q)])
  {
    hide Slot, Start, Stored;
    var q := if p <= 2 * c + 3 then p else 2 * c + 3;
    SlotSlice(v.oldest, h, j, 2 * c, p);
    SlotSlice(v.older, h, j, 2 * c + 1, p);
    SlotSlice(v.latest, h, j, 2 * c + 2, p);
    StartMonotone(j, 2 * c, q);
    StartMonotone(j, q, p);
    if p >= 2 * c + 2 { SliceJoins(h, Start(j, 2 * c), Start(j, 2 * c + 1), Start(j, 2 * c + 2)); }
    if p >= 2 * c + 3 { SliceJoins(h, Start(j, 2 * c), Start(j, 2 * c + 2), Start(j, 2 * c + 3)); }
  }

  /** Every level has reached clock |h| + 2. */
  ghost predicate Advanced(levels: seq<Level>, h: seq<Record>) {
    var l, t := |levels|, |h| + 2;
    forall j :: 0 <= j < l ==> LevelReached(levels, h, t, l, j)
  }

  lemma LevelAt(levels: seq<Level>, h: seq<Record>, j: nat)
    requires j < |levels| && Advanced(levels, h)
    ensures Slots(levels[j], h, j, Consumed(|levels|, j, |h| + 2), Produced(j, |h| + 2))
  {
    assert LevelReached(levels, h, |h| + 2, |levels|, j);
  }

  lemma LevelStores(levels: seq<Level>, h: seq<Record>, j: nat)
    requires j < |levels| && Advanced(levels, h)
    requires j < |levels| - 1 || |h| + 2 < Capacity(|levels|)
    ensures var v, t := levels[j], |h| + 2;
            var a, b := Start(j, 2 * Consumed(|levels|, j, t)), Start(j, Produced(j, t));
            && a <= b <= |h|
            && Stored(v.oldest) + Stored(v.older) + Stored(v.latest) == multiset(h[a..b])
  {
    hide Slots, Start, Stored, Advanced;
    LevelAt(levels, h, j);
    LevelSlice(levels[j], h, j, Consumed(|levels|, j, |h| + 2), Produced(j, |h| + 2));
    Occupancy(j, |h| + 2);
    TopFits(|levels|, |h| + 2);
  }

  /** The lowest n levels store exactly the most recent part of the history. */
  lemma {:induction false} RecentPart(levels: seq<Level>, h: seq<Record>, n: nat)
    requires 1 <= n <= |levels| && Advanced(levels, h)
    requires n < |levels| || |h| + 2 < Capacity(|levels|)
    ensures var from := Start(n - 1, 2 * Consumed(|levels|, n - 1, |h| + 2));
            from <= |h| && Searchable(levels, n) == multiset(h[from..])
    decreases n
  {
    hide Start, Stored, Produced, Advanced, Capacity;
    var l, t := |levels|, |h| + 2;
    LevelStores(levels, h, n - 1);
    var a, b := Start(n - 1, 2 * Consumed(l, n - 1, t)), Start(n - 1, Produced(n - 1, t));
    if n == 1 {
      ProducedZero(t);
      StartZero(|h|);
      assert h[b..] == [];
    } else {
      RecentPart(levels, h, n - 1);
      StartHalves(n - 2, Produced(n - 1, t));
    }
    SuffixJoins(h, a, b, Searchable(levels, n - 1));
  }

  lemma SuffixJoins(h: seq<Record>, a: nat, b: nat, rest: multiset<Record>)
    requires a <= b <= |h| && rest == multiset(h[b..])
    ensures rest + multiset(h[a..b]) == multiset(h[a..])
  {
    assert h[a..] == h[a..b] + h[b..];
  }

  /** Conservation: within capacity the searchable sets hold the history, no
      record lost and none twice, whatever merge is under way. */
  lemma Conservation(levels: seq<Level>, h: seq<Record>)
    requires |levels| >= 1 && Advanced(levels, h) && |h| + 2 < Capacity(|levels|)
    ensures Searchable(levels, |levels|) == multiset(h)
  {
    hide Advanced;
    RecentPart(levels, h, |levels|);
    assert h[0..] == h;
  }

  /** The bound is sharp: the update that reaches the capacity loses one whole
      slice of 2^(l-1) records from everything search reads. */
  lemma OverflowLoses(levels: seq<Level>, h: seq<Record>)
    requires |levels| >= 2 && |h| + 2 == Capacity(|levels|) && Advanced(levels, h)
    ensures var l := |levels|;
            && Start(l - 1, 3) <= Start(l - 1, 4) <= |h|
            && Searchable(levels, l) == multiset(h[..Start(l - 1, 3)]) + multiset(h[Start(l - 1, 4)..])
            && |Searchable(levels, l)| == |h| - Pow2(l - 1)
  {
    hide *;
    var l, t := |levels|, |h| + 2;
    FullTop(l, t);
    TopSlice(levels, h);
    BelowTop(levels, h);
    SearchableTop(levels);
    GapSize(h, Start(l - 1, 3), Start(l - 1, 4));
  }

  lemma SearchableTop(levels: seq<Level>)
    requires |levels| >= 1
    ensures var v := levels[|levels| - 1];
            Searchable(levels, |levels|) ==
            Searchable(levels, |levels| - 1) + (Stored(v.oldest) + Stored(v.older) + Stored(v.latest))
  {
    hide Stored;
  }

  lemma TopSlice(levels: seq<Level>, h: seq<Record>)
    requires |levels| >= 2 && |h| + 2 == Capacity(|levels|) && Advanced(levels, h)
    ensures var l := |levels|; var v := levels[l - 1];
            && Start(l - 1, 0) <= Start(l - 1, 3) <= |h|
            && Stored(v.oldest) + Stored(v.older) + Stored(v.latest) == multiset(h[Start(l - 1, 0)..Start(l - 1, 3)])
  {
    hide Slots, Stored, Advanced, Start, Produced, Capacity;
    var l := |levels|;
    FullTop(l, |h| + 2);
    LevelAt(levels, h, l - 1);
    LevelSlice(levels[l - 1], h, l - 1, 0, 4);
  }

  lemma BelowTop(levels: seq<Level>, h: seq<Record>)
    requires |levels| >= 2 && |h| + 2 == Capacity(|levels|) && Advanced(levels, h)
    ensures var from := Start(|levels| - 1, 4);
            from <= |h| && Searchable(levels, |levels| - 1) == multiset(h[from..])
  {
    hide Searchable, Advanced, Start, Produced, Capacity;
    var l := |levels|;
    FullTop(l, |h| + 2);
    RecentPart(levels, h, l - 1);
    StartHalves(l - 2, 4);
  }

  lemma GapSize(h: seq<Record>, a: nat, b: nat)
    requires a <= b <= |h|
    ensures h[0..a] == h[..a]
    ensures |multiset(h[..a]) + multiset(h[b..])| == |h| - (b - a)
  {
  }

  lemma FullTop(l: nat, t: nat)
    requires l >= 2 && t == Capacity(l)
    ensures Produced(l - 1, t) == 4
    ensures Start(l - 1, 0) == 0 && Start(l - 1, 4) == Start(l - 1, 3) + Pow2(l - 1) <= t - 2
  {
    DivModUnique(t, Pow2(l - 1), 6, 0);
    StartIsProduct(l - 1, 4);
  }

  // ----- search reads slot by slot -----

  function SlotOf(v: Level, k: nat): RecordSet {
    if k == 0 then v.oldest else if k == 1 then v.older else v.latest
  }

  ghost function Column(levels: seq<Level>, k: nat, n: nat): multiset<Record>
    requires n <= |levels|
  {
    if n == 0 then multiset{} else Column(levels, k, n - 1) + Stored(SlotOf(levels[n - 1], k))
  }

  lemma {:induction false} ColumnsAreSearchable(levels: seq<Level>, n: nat)
    requires n <= |levels|
    ensures Column(levels, 0, n) + Column(levels, 1, n) + Column(levels, 2, n) == Searchable(levels, n)
  {
    hide Stored;
    if n > 0 { ColumnsAreSearchable(levels, n - 1); }
  }

  lemma SelectsSum(f: multiset<Record>, m: multiset<Record>, f': multiset<Record>, m': multiset<Record>, w: string)
    requires Selects(f, m, w) && Selects(f', m', w)
    ensures Selects(f + f', m + m', w)
  {
  }

  /** Probing any slot selects the records of the keyword; an empty slot adds nothing. */
  lemma SlotSelects(levels: seq<Level>, h: seq<Record>, j: nat, k: nat, w: string)
    requires j < |levels| && k < 3 && Advanced(levels, h)
    ensures var s := SlotOf(levels[j], k);
            && s.WellFormed()
            && Selects(multiset(Probe(s.at, w, 1)), Stored(s), w)
            && (s.Size() == 0 ==> Stored(s) == multiset{})
  {
    hide Advanced, Selects, RecordSet.WellFormed, Probe, Start, Slot, Stored;
    var c, p := Consumed(|levels|, j, |h| + 2), Produced(j, |h| + 2);
    LevelAt(levels, h, j);
    SlotProbes(SlotOf(levels[j], k), h, j, 2 * c + k, p, w);
  }

  lemma SlotProbes(s: RecordSet, h: seq<Record>, j: nat, k: nat, p: nat, w: string)
    requires Slot(s, h, j, k, p) && Start(j, p) <= |h|
    ensures s.WellFormed()
    ensures Selects(multiset(Probe(s.at, w, 1)), Stored(s), w)
    ensures s.Size() == 0 ==> Stored(s) == multiset{}
  {
    hide Chunk, Selects, RecordSet.WellFormed, Probe, Start, Holds;
    SlotFull(s, h, j, k, p);
    EmptyHolds();
    if k < p {
      HoldsProbe(s, multiset(Chunk(h, j, k)), w);
    } else {
      EmptySelects(w);
      assert Empty.Listing() == [];
    }
  }

  lemma EmptySelects(w: string)
    ensures Selects(multiset([]), multiset{}, w)
  {
  }

  class Index {
    var levels: seq<Level>
    var updateCounter: nat
    ghost var history: seq<Record>

    /** Within the capacity of the levels they stand for the history. Once it is
        reached, at least a slice of 2^(l-1) records is out of reach for good. */
    ghost predicate Valid()
      reads this
    {
      && updateCounter == |history| && |levels| >= 1 && AllOk(levels) && levels[0].building == Empty
      && (|history| + 2 < Capacity(|levels|) ==> Settled(levels, history))
      && (|history| + 2 >= Capacity(|levels|) && |levels| >= 2 ==>
            Reach(levels, |levels|) + Pow2(|levels| - 1) <= |history|)
      && (|levels| == 1 ==> OneLevel(levels[0], history))
    }

    /** N is the number of updates the caller announces. */
    constructor (N: nat)
      requires N >= 1
      ensures Valid() && history == []
      ensures |levels| == Levels(N)
    {
      hide Settled, AllOk, OneLevel, Reach, Pow2, Capacity;
      var l := Levels(N);
      levels := seq(l, _ => EmptyLevel);
      updateCounter := 0;
      history := [];
      new;
      InitiallySettled(levels);
      InitiallyOk(levels);
      OneLevelStarts();
    }

    method Update(op: Op, keyword: string, ind: int)
      requires Valid()
      modifies this
      ensures Valid() && history == old(history) + [Record(keyword, ind, op)] && |levels| == |old(levels)|
      ensures Reach(levels, |levels|) <= old(Reach(levels, |levels|)) + 1
      ensures |levels| >= 2 && |history| + 2 <= Capacity(|levels|) ==> Advanced(levels, history)
    {
      hide Slots, Midway, Settled, Produced, Consumed, Advanced, Pow2, Capacity, AllOk, LevelOk, Reach, Reachable,
           Searchable, OneLevel, Took;
      ghost var h, l := history, |levels|;
      ghost var t := |h| + 2;
      var x := Record(keyword, ind, op);
      updateCounter := updateCounter + 1;
      if t < Capacity(l) { MidwayStart(levels, h); }
      Descend(h, t);
      ghost var before := levels;
      OkAt(levels, 0);
      if t < Capacity(l) { MidwayBottom(levels, h); }
      var v, moved := StoreNew(levels[0], x, h, Consumed(l, 0, t + 1));
      OkOne(levels, v);
      if l == 1 { OneLevelStep(levels[0], v, x, moved, h); }
      levels := levels[0 := v];
      history := history + [x];
      if t < Capacity(l) {
        MidwayEnd(before, h, x, v);
        CapacityReached(levels, history);
      }
    }

    /** The loop over the levels, from the top down. */
    method Descend(ghost h: seq<Record>, ghost t: nat)
      requires |levels| >= 1 && AllOk(levels) && levels[0].building == Empty
      requires t >= 2 && updateCounter == t - 1 && |h| == t - 2
      modifies this`levels
      ensures |levels| == |old(levels)| && AllOk(levels) && levels[0].building == Empty
      ensures Reach(levels, |levels|) <= old(Reach(levels, |levels|))
      ensures t < Capacity(|levels|) && Midway(old(levels), h, t, |levels|) ==> Midway(levels, h, t, 1)
      ensures |levels| == 1 ==> levels == old(levels)
    {
      hide *;
      ghost var within := t < Capacity(|levels|) && Midway(levels, h, t, |levels|);
      for i := |levels| downto 1
        invariant |levels| == |old(levels)| && levels[0].building == Empty
        invariant AllOk(levels) && Reach(levels, |levels|) <= old(Reach(levels, |levels|))
        invariant within ==> Midway(levels, h, t, i)
        invariant i == |levels| ==> levels == old(levels)
      {
        OkAt(levels, i - 1);
        OkAt(levels, i);
        if within { MidwayReady(levels, h, t, i, UpCnt(i, updateCounter)); }
        var lower, upper := MergeStep(i, UpCnt(i, updateCounter), levels[i - 1], levels[i], h, t,
                                      Consumed(|levels|, i, t + 1));
        OkPair(levels, i, lower, upper);
        if within { MidwayStep(levels, h, t, i, lower, upper); }
        levels := levels[i - 1 := lower][i := upper];
      }
    }

    lemma Reached()
      requires Valid() && |history| + 2 < Capacity(|levels|)
      ensures |levels| >= 1 && Advanced(levels, history) && |history| + 2 < Capacity(|levels|)
    {
      hide LevelReached, MergeReached, Capacity;
    }

    /** Whatever updates were made, nothing is lost if and only if they are within the
        capacity; in a single level, if and only if no two updates from the third on
        share a keyword. */
    lemma ConservedExactly()
      requires Valid()
      ensures Searchable(levels, |levels|) == multiset(history) <==>
              if |levels| == 1 then KeywordsDiffer(Cut(history, 2, |history|))
              else |history| + 2 < Capacity(|levels|)
    {
      hide Advanced, Searchable, Settled, AllOk, Reach, Capacity, OneLevel;
      if |levels| == 1 {
        OkAt(levels, 0);
        OneLevelConserves(levels, history);
      } else if |history| + 2 < Capacity(|levels|) {
        Reached();
        Conservation(levels, history);
      } else {
        ReachIsSearchable(levels, |levels|);
        assert |multiset(history)| == |history| && Pow2(|levels| - 1) >= 1;
      }
    }

    /** The live ids of what the probes meet: a part of what the sets hold, all of it
        up to the update that reaches the capacity, and the history while within. */
    method Search(keyword: string) returns (r: seq<int>, ghost met: multiset<Record>)
      requires Valid()
      ensures met <= Searchable(levels, |levels|) && IsAnswer(met, keyword, r)
      ensures Advanced(levels, history) ==> IsAnswer(Searchable(levels, |levels|), keyword, r)
      ensures |history| + 2 < Capacity(|levels|) ==> IsAnswer(multiset(history), keyword, r)
    {
      hide Advanced, Selects, Stored, Searchable, Probe, IsAnswer, Capacity, AllOk, Settled, Reach, Met, Column,
           Columns, SlotOf, Pow2, OneLevel;
      var found: seq<Record> := [];
      ghost var read: multiset<Record> := multiset{};
      MetNothing(levels, history, keyword);
      for k := 0 to 3
        invariant Met(levels, history, found, read, keyword)
        invariant read == Columns(levels, k)
      {
        ghost var base := read;
        ColumnStarts(levels, k);
        for i := 0 to |levels|
          invariant Met(levels, history, found, read, keyword)
          invariant read == base + Column(levels, k, i)
        {
          var s := SlotOf(levels[i], k);
          MetSlot(levels, history, found, read, i, k, keyword);
          ColumnStep(levels, k, i);
          if s.Size() > 0 {
            var part := ProbeAll(s, keyword, 1);
            found := found + part;
          }
          read := read + Stored(s);
        }
      }
      ColumnsAreSearchable(levels, |levels|);
      met := multiset(found);
      MetAll(levels, history, found, read, keyword);
      r := NetAnswer(found, keyword);
      if Advanced(levels, history) { SelectsSameAnswer(met, Searchable(levels, |levels|), keyword, r); }
      if |history| + 2 < Capacity(|levels|) {
        Reached();
        Conservation(levels, history);
      }
    }
  }

  /** What the probes have met of the sets read so far: everything, if these are as
      they should be. */
  ghost predicate Met(levels: seq<Level>, h: seq<Record>, found: seq<Record>, read: multiset<Record>, w: string) {
    && AllOk(levels) && multiset(found) <= read && OfKeyword(found, w)
    && (Advanced(levels, h) ==> Selects(multiset(found), read, w))
  }

  ghost function Columns(levels: seq<Level>, k: nat): multiset<Record> {
    if k == 0 then multiset{} else Columns(levels, k - 1) + Column(levels, k - 1, |levels|)
  }

  lemma MetNothing(levels: seq<Level>, h: seq<Record>, w: string)
    requires AllOk(levels)
    ensures Met(levels, h, [], multiset{}, w) && Columns(levels, 0) == multiset{}
  {
    EmptySelects(w);
  }

  lemma ColumnStarts(levels: seq<Level>, k: nat)
    ensures Column(levels, k, 0) == multiset{}
    ensures Columns(levels, k + 1) == Columns(levels, k) + Column(levels, k, |levels|)
  {
  }

  lemma ColumnStep(levels: seq<Level>, k: nat, i: nat)
    requires i < |levels|
    ensures Column(levels, k, i + 1) == Column(levels, k, i) + Stored(SlotOf(levels[i], k))
  {
  }

  lemma MetSlot(levels: seq<Level>, h: seq<Record>, found: seq<Record>, read: multiset<Record>, i: nat, k: nat,
                w: string)
    requires Met(levels, h, found, read, w) && i < |levels| && k < 3
    ensures var s := SlotOf(levels[i], k);
            && (s.Size() > 0 ==> Met(levels, h, found + Probe(s.at, w, 1), read + Stored(s), w))
            && (s.Size() == 0 ==> Met(levels, h, found, read + Stored(s), w))
  {
    hide Advanced, Selects, Stored, Probe, AllOk, LevelOk;
    OkAt(levels, i);
    SlotMeets(levels[i], i, k, w);
    var s := SlotOf(levels[i], k);
    if Advanced(levels, h) {
      SlotSelects(levels, h, i, k, w);
      SelectsSum(multiset(found), read, multiset(Probe(s.at, w, 1)), Stored(s), w);
    }
    if s.Size() == 0 { assert read + Stored(s) == read; }
  }

  lemma MetAll(levels: seq<Level>, h: seq<Record>, found: seq<Record>, read: multiset<Record>, w: string)
    requires Met(levels, h, found, read, w) && read == Columns(levels, 3)
    requires Column(levels, 0, |levels|) + Column(levels, 1, |levels|) + Column(levels, 2, |levels|)
             == Searchable(levels, |levels|)
    ensures read == Searchable(levels, |levels|) && multiset(found) <= read
    ensures forall k :: 0 <= k < |found| ==> found[k].keyword == w
    ensures Advanced(levels, h) ==> Selects(multiset(found), read, w)
  {
    hide Column, Searchable, Advanced, Selects;
    assert Columns(levels, 0) == multiset{};
    assert Columns(levels, 1) == Column(levels, 0, |levels|);
    assert Columns(levels, 2) == Columns(levels, 1) + Column(levels, 1, |levels|);
    assert Columns(levels, 3) == Columns(levels, 2) + Column(levels, 2, |levels|);
  }

  ghost predicate OfKeyword(found: seq<Record>, w: string) {
    forall k :: 0 <= k < |found| ==> found[k].keyword == w
  }

  lemma SlotMeets(v: Level, j: nat, k: nat, w: string)
    requires LevelOk(v, j) && k < 3
    ensures var s := SlotOf(v, k);
            && multiset(Probe(s.at, w, 1)) <= Stored(s) && OfKeyword(Probe(s.at, w, 1), w)
            && (s.Size() == 0 ==> Stored(s) == multiset{})
  {
    hide RecordSet.WellFormed, Pow2, Probe;
    var s := SlotOf(v, k);
    OrderSize(s);
    ProbeWithin(s, w, 1);
    ProbeKeyword(s.at, w, 1);
  }

  // ----- what no update can recover -----

  ghost predicate AllOk(levels: seq<Level>) {
    forall j :: 0 <= j < |levels| ==> LevelOk(levels[j], j)
  }

  /** How many records search can reach in the lowest n levels. */
  ghost function Reach(levels: seq<Level>, n: nat): nat
    requires n <= |levels|
  {
    if n == 0 then 0 else Reach(levels, n - 1) + Reachable(levels[n - 1])
  }

  lemma OkAt(levels: seq<Level>, j: nat)
    requires AllOk(levels) && j < |levels|
    ensures LevelOk(levels[j], j)
  {
  }

  lemma {:induction false} ReachFrame(a: seq<Level>, b: seq<Level>, n: nat)
    requires n <= |a| && n <= |b| && forall j :: 0 <= j < n ==> a[j] == b[j]
    ensures Reach(a, n) == Reach(b, n)
  {
    if n > 0 { ReachFrame(a, b, n - 1); }
  }

  lemma {:induction false} ReachPair(a: seq<Level>, i: nat, lower: Level, upper: Level, n: nat)
    requires 1 <= i < n <= |a| && Reachable(lower) + Reachable(upper) <= Reachable(a[i - 1]) + Reachable(a[i])
    ensures Reach(a[i - 1 := lower][i := upper], n) <= Reach(a, n)
  {
    var b := a[i - 1 := lower][i := upper];
    if i < n - 1 {
      ReachPair(a, i, lower, upper, n - 1);
    } else {
      ReachFrame(a, b, i - 1);
      assert Reach(b, n) == Reach(b, i - 1) + Reachable(lower) + Reachable(upper);
    }
  }

  lemma {:induction false} ReachOne(a: seq<Level>, v: Level, n: nat)
    requires 1 <= n <= |a| && Reachable(v) <= Reachable(a[0]) + 1
    ensures Reach(a[0 := v], n) <= Reach(a, n) + 1
  {
    if n > 1 { ReachOne(a, v, n - 1); }
  }

  lemma OkPair(levels: seq<Level>, i: nat, lower: Level, upper: Level)
    requires 1 <= i < |levels| && AllOk(levels) && LevelOk(lower, i - 1) && LevelOk(upper, i)
    requires Reachable(lower) + Reachable(upper) <= Reachable(levels[i - 1]) + Reachable(levels[i])
    ensures AllOk(levels[i - 1 := lower][i := upper])
    ensures Reach(levels[i - 1 := lower][i := upper], |levels|) <= Reach(levels, |levels|)
  {
    hide LevelOk, Reachable;
    ReachPair(levels, i, lower, upper, |levels|);
  }

  lemma OkOne(levels: seq<Level>, v: Level)
    requires |levels| >= 1 && AllOk(levels) && LevelOk(v, 0) && Reachable(v) <= Reachable(levels[0]) + 1
    ensures AllOk(levels[0 := v])
    ensures Reach(levels[0 := v], |levels|) <= Reach(levels, |levels|) + 1
  {
    hide LevelOk, Reachable;
    ReachOne(levels, v, |levels|);
  }

  lemma {:induction false} ReachIsSearchable(levels: seq<Level>, n: nat)
    requires n <= |levels| && AllOk(levels)
    ensures |Searchable(levels, n)| == Reach(levels, n)
  {
    hide LevelOk, Stored;
    if n > 0 {
      ReachIsSearchable(levels, n - 1);
      OkAt(levels, n - 1);
      ReachableIsStored(levels[n - 1], n - 1);
    }
  }

  lemma ReachableIsStored(v: Level, j: nat)
    requires LevelOk(v, j)
    ensures |Stored(v.oldest) + Stored(v.older) + Stored(v.latest)| == Reachable(v)
  {
    hide RecordSet.WellFormed, Pow2;
    OrderSize(v.oldest);
    OrderSize(v.older);
    OrderSize(v.latest);
  }

  // ----- a single level -----

  /** The records numbered from a to b. */
  ghost function Cut(h: seq<Record>, a: nat, b: nat): seq<Record> {
    var hi := if b <= |h| then b else |h|;
    h[if a <= hi then a else hi..hi]
  }

  ghost predicate KeywordsDiffer(recs: seq<Record>) {
    forall i, j :: 0 <= i < j < |recs| ==> recs[i].keyword != recs[j].keyword
  }

  /** Storing records under label 1 unless it is taken. */
  ghost function Firsts(recs: seq<Record>): map<Label, Record> {
    if recs == [] then map[]
    else
      var x, m := recs[|recs| - 1], Firsts(recs[..|recs| - 1]);
      if Label(x.keyword, 1) in m then m else m[Label(x.keyword, 1) := x]
  }

  /** Without a level above, the third set takes every later record that it can. */
  ghost predicate OneLevel(v: Level, h: seq<Record>) {
    && Stored(v.oldest) == multiset(Cut(h, 0, 1)) && (v.oldest.Size() == 0 <==> |h| == 0)
    && Stored(v.older) == multiset(Cut(h, 1, 2)) && (v.older.Size() == 0 <==> |h| <= 1)
    && v.latest.at == Firsts(Cut(h, 2, |h|))
  }

  lemma OneLevelStarts()
    ensures OneLevel(EmptyLevel, [])
  {
    EmptyHolds();
    assert Empty.Listing() == [];
  }

  lemma StoredOne(s: RecordSet, x: Record)
    requires s.WellFormed() && s.at == map[Label(x.keyword, 1) := x]
    ensures Stored(s) == multiset{x} && s.Size() == 1
  {
    assert s.at == map[][Label(x.keyword, 1) := x];
    assert s.at == LabelAll(1, [x]);
    ListingPermutes(1, s, [x]);
  }

  lemma FirstsStep(recs: seq<Record>, x: Record)
    ensures var m := Firsts(recs);
            Firsts(recs + [x]) == if Label(x.keyword, 1) in m then m else m[Label(x.keyword, 1) := x]
  {
    assert (recs + [x])[..|recs|] == recs;
  }

  lemma CutStep(h: seq<Record>, x: Record)
    ensures Cut(h + [x], 0, 1) == if |h| == 0 then [x] else Cut(h, 0, 1)
    ensures Cut(h + [x], 1, 2) == if |h| == 1 then [x] else Cut(h, 1, 2)
    ensures Cut(h + [x], 2, |h| + 1) == if |h| >= 2 then Cut(h, 2, |h|) + [x] else Cut(h, 2, |h|)
  {
  }

  lemma OneLevelStep(v: Level, v': Level, x: Record, moved: RecordSet, h: seq<Record>)
    requires OneLevel(v, h) && Took(v, v', x, moved)
    ensures OneLevel(v', h + [x])
  {
    hide Stored, Cut, Firsts, RecordSet.WellFormed;
    CutStep(h, x);
    if |h| <= 1 {
      StoredOne(moved, x);
    } else {
      FirstsStep(Cut(h, 2, |h|), x);
    }
  }

  ghost predicate HasKeyword(recs: seq<Record>, w: string) {
    exists i :: 0 <= i < |recs| && recs[i].keyword == w
  }

  lemma HasKeywordStep(recs: seq<Record>, x: Record)
    ensures forall w :: HasKeyword(recs + [x], w) <==> HasKeyword(recs, w) || x.keyword == w
    ensures KeywordsDiffer(recs + [x]) <==> KeywordsDiffer(recs) && !HasKeyword(recs, x.keyword)
  {
    var more := recs + [x];
    assert forall i :: 0 <= i < |recs| ==> more[i] == recs[i];
    assert more[|recs|] == x;
    forall w ensures HasKeyword(more, w) <==> HasKeyword(recs, w) || x.keyword == w {
      if HasKeyword(recs, w) {
        var i :| 0 <= i < |recs| && recs[i].keyword == w;
        assert more[i].keyword == w;
      }
    }
  }

  lemma {:induction false} NoKeywordNoRecords(recs: seq<Record>, w: string)
    requires !HasKeyword(recs, w)
    ensures Filter(recs, w) == []
  {
    if recs != [] {
      var init, x := recs[..|recs| - 1], recs[|recs| - 1];
      assert recs == init + [x];
      HasKeywordStep(init, x);
      NoKeywordNoRecords(init, w);
    }
  }

  /** Nothing is dropped if and only if the keywords differ. */
  lemma {:induction false} FirstsKeepAll(recs: seq<Record>)
    ensures forall key :: key in Firsts(recs) <==> key.count == 1 && HasKeyword(recs, key.keyword)
    ensures |Firsts(recs)| <= |recs| && (|Firsts(recs)| == |recs| <==> KeywordsDiffer(recs))
    ensures KeywordsDiffer(recs) ==> Firsts(recs) == LabelAll(1, recs)
  {
    if recs != [] {
      var init, x := recs[..|recs| - 1], recs[|recs| - 1];
      assert recs == init + [x];
      FirstsKeepAll(init);
      FirstsStep(init, x);
      HasKeywordStep(init, x);
      hide HasKeyword, KeywordsDiffer, Firsts;
      if !HasKeyword(init, x.keyword) { NoKeywordNoRecords(init, x.keyword); }
    }
  }

  lemma OneLevelConserves(levels: seq<Level>, h: seq<Record>)
    requires |levels| == 1 && LevelOk(levels[0], 0) && OneLevel(levels[0], h)
    ensures Searchable(levels, 1) == multiset(h) <==> KeywordsDiffer(Cut(h, 2, |h|))
  {
    hide Stored, Cut, Firsts, RecordSet.WellFormed, KeywordsDiffer;
    var v, late := levels[0], Cut(h, 2, |h|);
    FirstsKeepAll(late);
    OneLevelSum(levels, h);
    StoredSize(v.latest);
    if KeywordsDiffer(late) { StoredAll(v.latest, late); }
  }

  lemma StoredSize(s: RecordSet)
    requires s.WellFormed()
    ensures |Stored(s)| == s.Size()
  {
    OrderSize(s);
  }

  lemma StoredAll(s: RecordSet, recs: seq<Record>)
    requires s.WellFormed() && s.at == LabelAll(1, recs)
    ensures Stored(s) == multiset(recs)
  {
    ListingPermutes(1, s, recs);
  }

  lemma OneLevelSum(levels: seq<Level>, h: seq<Record>)
    requires |levels| == 1 && OneLevel(levels[0], h)
    ensures Searchable(levels, 1) == multiset(Cut(h, 0, 1)) + multiset(Cut(h, 1, 2)) + Stored(levels[0].latest)
    ensures multiset(h) == multiset(Cut(h, 0, 1)) + multiset(Cut(h, 1, 2)) + multiset(Cut(h, 2, |h|))
  {
    hide Stored, Firsts;
    assert h == Cut(h, 0, 1) + Cut(h, 1, 2) + Cut(h, 2, |h|);
    assert Searchable(levels, 0) == multiset{};
  }

  lemma CapacityReached(levels: seq<Level>, h: seq<Record>)
    requires AllOk(levels)
    ensures |levels| >= 2 && |h| + 2 == Capacity(|levels|) && Advanced(levels, h) ==>
      Reach(levels, |levels|) + Pow2(|levels| - 1) == |h|
  {
    hide AllOk, Advanced, Capacity, Searchable, Reach;
    if |levels| >= 2 && |h| + 2 == Capacity(|levels|) && Advanced(levels, h) {
      OverflowLoses(levels, h);
      ReachIsSearchable(levels, |levels|);
    }
  }

  lemma InitiallyOk(levels: seq<Level>)
    requires forall j :: 0 <= j < |levels| ==> levels[j] == EmptyLevel
    ensures AllOk(levels)
  {
    EmptyHolds();
  }

  /** What the loop finds at its turn for level i. */
  lemma MidwayReady(levels: seq<Level>, h: seq<Record>, t: nat, i: nat, upCnt: int)
    requires 1 <= i < |levels| && Midway(levels, h, t, i + 1) && |h| == t - 2 && t < Capacity(|levels|)
    requires upCnt == UpCnt(i, t - 1)
    ensures Ready(i, upCnt, levels[i - 1], levels[i], h, t, Consumed(|levels|, i, t + 1))
  {
    hide Midway, Slots, Merging, Pow2, UpCnt, Capacity, Produced;
    MidwayAt(levels, h, t, i);
    RoomBefore(|levels|, i, t);
    CycleNumber(i, t);
  }

  lemma InitiallySettled(levels: seq<Level>)
    requires |levels| >= 1 && forall j :: 0 <= j < |levels| ==> levels[j] == EmptyLevel
    ensures Settled(levels, [])
  {
    var l := |levels|;
    forall j | 0 <= j < l ensures LevelReached(levels, [], 2, l, j) {
      EarlyClock(j);
      EarlyClock(j + 1);
    }
    EmptyHolds();
    forall j | 1 <= j < l ensures MergeReached(levels, 2, l, j) {
      EarlyClock(j);
    }
  }

  lemma EarlyClock(j: nat)
    ensures Produced(j, 2) == 0 && Progress(j, 2) == 0
    ensures Start(j, 0) == 0
  {
    assert j >= 1 ==> Pow2(j) >= 2;
    DivBound(2, Pow2(j), 2);
  }

  lemma MidwayStart(levels: seq<Level>, h: seq<Record>)
    requires Settled(levels, h)
    ensures |levels| >= 1 && |h| + 2 < Capacity(|levels|)
    ensures Midway(levels, h, |h| + 2, |levels|) && levels[0].building == Empty
  {
  }

  lemma MidwayAt(levels: seq<Level>, h: seq<Record>, t: nat, i: nat)
    requires 1 <= i < |levels| && Midway(levels, h, t, i + 1)
    ensures Slots(levels[i - 1], h, i - 1, Produced(i, t), Produced(i - 1, t))
    ensures Slots(levels[i], h, i, Consumed(|levels|, i, t + 1), Produced(i, t))
    ensures Merging(levels[i], levels[i - 1], i, t)
  {
    hide Slots, Merging;
    assert LevelReached(levels, h, t, i + 1, i) && LevelReached(levels, h, t, i + 1, i - 1);
    assert MergeReached(levels, t, i + 1, i);
  }

  lemma MidwayBottom(levels: seq<Level>, h: seq<Record>)
    requires |levels| >= 1 && Midway(levels, h, |h| + 2, 1)
    ensures Slots(levels[0], h, 0, Consumed(|levels|, 0, |h| + 3), |h|)
  {
    hide Slots, Merging;
    assert LevelReached(levels, h, |h| + 2, 1, 0);
    ProducedZero(|h| + 2);
  }

  /** Storing the new record brings level 0, and with it the index, to the next clock. */
  lemma MidwayEnd(levels: seq<Level>, h: seq<Record>, x: Record, v: Level)
    requires |levels| >= 1 && |h| + 2 < Capacity(|levels|) && Midway(levels, h, |h| + 2, 1)
    requires var c := Consumed(|levels|, 0, |h| + 3); |h| - 2 * c < 3 ==> Slots(v, h + [x], 0, c, |h| + 1)
    requires v.building == Empty
    requires levels[0].oldest != Empty ==> v.oldest == levels[0].oldest
    requires levels[0].older != Empty ==> v.older == levels[0].older
    ensures |h| + 3 < Capacity(|levels|) ==> Settled(levels[0 := v], h + [x])
    ensures |levels| >= 2 ==> Advanced(levels[0 := v], h + [x])
  {
    hide Slots, Merging;
    var l, t, after, h' := |levels|, |h| + 2, levels[0 := v], h + [x];
    var t' := t + 1;
    Occupancy(0, t');
    ProducedZero(t');
    forall j | 0 <= j < l && (l >= 2 || t' < Capacity(l)) ensures LevelReached(after, h', t', l, j) {
      if j > 0 {
        assert LevelReached(levels, h, t, 1, j);
        SlotsExtend(levels[j], h, x, j, Consumed(l, j, t + 1), Produced(j, t + 1));
      }
    }
    if t + 1 < Capacity(l) {
      forall j | 1 <= j < l ensures MergeReached(after, t', l, j) {
        assert MergeReached(levels, t, 1, j);
        if j == 1 { MergingKept(levels[1], levels[0], v, 1, t + 1); }
      }
    }
  }

  // ----- whole runs -----

  /** In every run, every search made within the capacity of the levels, which N
      updates never reach, answers with exactly the live ids of the updates before it. */
  method Run(N: nat, ops: seq<Request>) returns (answers: seq<seq<int>>)
    requires N >= 1
    ensures |answers| == |ops|
    ensures forall k :: 0 <= k < |ops| && ops[k].Query? && |Writes(ops[..k])| + 2 < Capacity(Levels(N)) ==>
              Ascending(answers[k])
    ensures forall k, id :: 0 <= k < |ops| && ops[k].Query? && |Writes(ops[..k])| + 2 < Capacity(Levels(N)) ==>
              (id in answers[k] <==>
               |set j: nat | j < k && ops[j] == Write(Record(ops[k].keyword, id, INS))|
               > |set j: nat | j < k && ops[j] == Write(Record(ops[k].keyword, id, DEL))|)
  {
    hide Index.Valid, IsAnswer, Owed, Positions, Capacity, Levels, Advanced, Writes, Reach, Searchable;
    answers := [];
    assert ops[..0] == [];
    WritesEmpty();
    var index := new Index(N);
    for k := 0 to |ops|
      invariant |answers| == k && fresh(index) && index.Valid() && index.history == Writes(ops[..k])
      invariant |index.levels| == Levels(N)
      invariant forall j ::
                  0 <= j < k && ops[j].Query? && |Writes(ops[..j])| + 2 < Capacity(Levels(N)) ==>
                    Owed(ops, j, ops[j].keyword, answers[j])
    {
      WritesStep(ops, k);
      match ops[k]
      case Write(x) =>
        index.Update(x.op, x.keyword, x.id);
        answers := answers + [[]];
      case Query(w) =>
        var r, _ := index.Search(w);
        if |Writes(ops[..k])| + 2 < Capacity(Levels(N)) { OwedIs(ops, k, w, r); }
        answers := answers + [r];
    }
    forall k | 0 <= k < |ops| && ops[k].Query? && |Writes(ops[..k])| + 2 < Capacity(Levels(N))
      ensures Ascending(answers[k])
      ensures forall id :: id in answers[k] <==>
                |set j: nat | j < k && ops[j] == Write(Record(ops[k].keyword, id, INS))|
                > |set j: nat | j < k && ops[j] == Write(Record(ops[k].keyword, id, DEL))| {
      OwedMeans(ops, k, ops[k].keyword, answers[k]);
    }
  }

  // ----- one update too many -----

  ghost function Numbered(n: nat): seq<Record> {
    seq(n, i => Record("w", i, INS))
  }

  lemma NumberedStep(n: nat)
    ensures Numbered(n + 1) == Numbered(n) + [Record("w", n, INS)]
  {
  }

  lemma NumberedLive(n: nat, a: nat, b: nat, id: int)
    requires a <= b <= n
    ensures Live(multiset(Numbered(n)[..a]) + multiset(Numbered(n)[b..]), "w", id) <==> 0 <= id < a || b <= id < n
  {
    var h := Numbered(n);
    var ins, del := Record("w", id, INS), Record("w", id, DEL);
    assert ins in h[..a] <==> 0 <= id < a by {
      if 0 <= id < a { assert h[..a][id] == ins; }
    }
    assert ins in h[b..] <==> b <= id < n by {
      if b <= id < n { assert h[b..][id - b] == ins; }
    }
    assert del !in h[..a] && del !in h[b..];
    assert multiset(h[..a])[del] == 0 && multiset(h[b..])[del] == 0;
    assert ins in h[..a] <==> multiset(h[..a])[ins] > 0;
    assert ins in h[b..] <==> multiset(h[b..])[ins] > 0;
  }

  lemma NumberedSize(n: nat)
    ensures |Numbered(n)| == n
  {
  }

  lemma TwoLevels(n: nat)
    requires n >= 3
    ensures Levels(n) >= 2 && Capacity(Levels(n)) >= 12
  {
    Pow2Monotone(1, Levels(n) - 1);
  }

  lemma NumberedSpec(h: seq<Record>, n: nat, gap: nat, w: nat, r: seq<int>)
    requires h == Numbered(n) && gap + w <= n && w >= 1
    requires IsAnswer(multiset(h[..gap]) + multiset(h[gap + w..]), "w", r)
    ensures forall id :: id in r <==> 0 <= id < gap || gap + w <= id < n
    ensures !IsAnswer(multiset(h), "w", r)
  {
    hide Live, Numbered;
    forall id ensures id in r <==> 0 <= id < gap || gap + w <= id < n {
      NumberedLive(n, gap, gap + w, id);
    }
    NumberedSize(n);
    assert h[..n] == h && h[n..] == [];
    assert multiset(h[..n]) + multiset(h[n..]) == multiset(h);
    NumberedLive(n, n, n, gap);
    assert gap !in r && Live(multiset(h), "w", gap);
  }

  /** For every N from 3 on: insert ids until the capacity is reached; the search
      then answers with all of them except one slice of 2^(l-1). */
  method OverflowRun(N: nat) returns (r: seq<int>, ghost gap: nat)
    requires N >= 3
    ensures Levels(N) >= 2
    ensures var l := Levels(N); var n := Capacity(l) - 2;
            && gap + Pow2(l - 1) <= n
            && (forall id :: id in r <==> 0 <= id < gap || gap + Pow2(l - 1) <= id < n)
            && !IsAnswer(multiset(Numbered(n)), "w", r)
  {
    hide Index.Valid, Advanced, Numbered, Capacity, Levels, Searchable, Start, Pow2, IsAnswer;
    TwoLevels(N);
    var index := new Index(N);
    var l := Levels(N);
    NumberedSize(0);
    var n := Capacity(l) - 2;
    for k := 0 to n
      invariant fresh(index) && |index.levels| == l && index.history == Numbered(k)
      invariant index.Valid()
      invariant k > 0 ==> Advanced(index.levels, index.history)
    {
      NumberedStep(k);
      NumberedSize(k + 1);
      index.Update(INS, "w", k);
    }
    var answer, _ := index.Search("w");
    r := answer;
    NumberedSize(n);
    OverflowLoses(index.levels, index.history);
    FullTop(l, n + 2);
    gap := Start(l - 1, 3);
    SliceAtLeastOne(l - 1);
    NumberedSpec(index.history, n, gap, Pow2(l - 1), r);
  }

  lemma SliceAtLeastOne(k: nat)
    ensures Pow2(k) >= 1
  {
  }
}

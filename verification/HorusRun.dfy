/** Whole runs of Horus over its Path ORAM. */
module HorusRun {
  import opened Powers
  import opened Collections
  import opened Bids
  import opened OramState
  import opened PrfOram
  import opened HorusState
  import opened Horus

  datatype Request = Put(keyword: string, ind: int) | Drop(keyword: string, ind: int) | Query(keyword: string)

  /** The plain meaning of a run: the set of live ids of a keyword. */
  function Live(ops: seq<Request>, w: string): set<int> {
    if ops == [] then {}
    else
      var before := Live(ops[..|ops| - 1], w);
      match ops[|ops| - 1]
      case Put(v, ind) => if v == w then before + {ind} else before
      case Drop(v, ind) => if v == w then before - {ind} else before
      case Query(_) => before
  }

  /** Was the keyword ever inserted? */
  function Seen(ops: seq<Request>, w: string): bool {
    ops != [] && (Seen(ops[..|ops| - 1], w) || (ops[|ops| - 1].Put? && ops[|ops| - 1].keyword == w))
  }

  ghost function Step(sp: Spec, op: Request): Spec {
    match op
    case Put(w, ind) => SpecInsert(sp, w, ind)
    case Drop(w, ind) => SpecRemove(sp, w, ind)
    case Query(_) => sp
  }

  /** The slots agree with the plain meaning: every live id in exactly one slot. */
  ghost predicate Agrees(sp: Spec, ops: seq<Request>) {
    forall w :: SlotsAgree(SlotsOf(sp, w), Live(ops, w)) && (w in sp <==> Seen(ops, w))
  }

  ghost predicate SlotsAgree(k: Slots, live: set<int>) {
    && Distinct(k.ids) && |k.ids| <= |k.acc|
    && (forall x :: x in k.ids <==> x in live)
  }

  lemma InsertAgrees(k: Slots, live: set<int>, ind: int)
    requires SlotsAgree(k, live) && ind !in k.ids
    ensures var n := |k.ids|;
            var acc := if n < |k.acc| then k.acc[n := k.acc[n] + 1] else k.acc + [1];
            SlotsAgree(Slots(k.ids + [ind], acc, k.ever + {ind}), live + {ind})
  {
  }

  lemma RemoveAgrees(k: Slots, live: set<int>, ind: int)
    requires SlotsAgree(k, live) && ind in k.ids
    ensures var n, i := |k.ids|, IndexOf(k.ids, ind);
            && (i == n - 1 ==> SlotsAgree(k.(ids := k.ids[..n - 1]), live - {ind}))
            && (i < n - 1 ==>
                  var ids := k.ids[i := k.ids[n - 1]][..n - 1];
                  SlotsAgree(k.(ids := ids, acc := k.acc[i := k.acc[i] + 1]), live - {ind}))
  {
    hide IndexOf;
    var n, i := |k.ids|, IndexOf(k.ids, ind);
    if i == n - 1 {
      LastMember(k.ids);
    } else {
      SwapMembers(k.ids, i);
    }
  }

  lemma LastMember(ids: seq<int>)
    requires Distinct(ids) && ids != []
    ensures Distinct(ids[..|ids| - 1])
    ensures forall x :: x in ids[..|ids| - 1] <==> x in ids && x != ids[|ids| - 1]
  {
    var n := |ids| - 1;
    assert ids == ids[..n] + [ids[n]];
  }

  /** One operation keeps slots and plain meaning in agreement. */
  lemma StepAgrees(sp: Spec, ops: seq<Request>, op: Request)
    requires Agrees(sp, ops)
    ensures Agrees(Step(sp, op), ops + [op])
  {
    hide SlotsAgree, IndexOf;
    assert (ops + [op])[..|ops|] == ops;
    forall w
      ensures SlotsAgree(SlotsOf(Step(sp, op), w), Live(ops + [op], w))
      ensures (w in Step(sp, op) <==> Seen(ops + [op], w)) {
      assert SlotsAgree(SlotsOf(sp, w), Live(ops, w));
      if !op.Query? && w == op.keyword { OwnStepAgrees(sp, ops, op); }
    }
  }

  lemma OwnStepAgrees(sp: Spec, ops: seq<Request>, op: Request)
    requires !op.Query? && SlotsAgree(SlotsOf(sp, op.keyword), Live(ops, op.keyword))
    requires op.keyword in sp <==> Seen(ops, op.keyword)
    ensures SlotsAgree(SlotsOf(Step(sp, op), op.keyword), Live(ops + [op], op.keyword))
    ensures op.keyword in Step(sp, op) <==> Seen(ops + [op], op.keyword)
  {
    hide IndexOf;
    assert (ops + [op])[..|ops|] == ops;
    var k, live := SlotsOf(sp, op.keyword), Live(ops, op.keyword);
    if op.ind in k.ids {
      assert live + {op.ind} == live;
      RemoveAgrees(k, live, op.ind);
    } else {
      assert live - {op.ind} == live;
      InsertAgrees(k, live, op.ind);
    }
  }

  // ----- what a run costs -----

  /** The slots and counters that a run leaves. */
  function After(ops: seq<Request>): Counters {
    if ops == [] then Counters(map[], map[], map[])
    else
      var before := After(ops[..|ops| - 1]);
      match ops[|ops| - 1]
      case Put(w, ind) => AfterPut(before, w, ind)
      case Drop(w, ind) => AfterDrop(before, w, ind)
      case Query(w) => AfterQuery(before, w)
  }

  /** Boxes that one operation writes. */
  ghost function CostOf(c: Counters, op: Request): nat {
    match op
    case Put(w, ind) => PutCost(c, w, ind)
    case Drop(w, ind) => DropCost(c, w, ind)
    case Query(w) => QueryCost(c, w)
  }

  /** Boxes that a run writes. */
  ghost function Total(ops: seq<Request>): nat {
    if ops == [] then 0
    else Total(ops[..|ops| - 1]) + CostOf(After(ops[..|ops| - 1]), ops[|ops| - 1])
  }

  lemma RunStep(ops: seq<Request>, k: nat)
    requires k < |ops|
    ensures Total(ops[..k + 1]) == Total(ops[..k]) + CostOf(After(ops[..k]), ops[k])
    ensures var c := After(ops[..k]);
            After(ops[..k + 1]) == match ops[k]
              case Put(w, ind) => AfterPut(c, w, ind)
              case Drop(w, ind) => AfterDrop(c, w, ind)
              case Query(w) => AfterQuery(c, w)
  {
    hide CostOf, AfterPut, AfterDrop, AfterQuery;
    assert ops[..k + 1][..k] == ops[..k];
  }

  /** The slots that a run leaves agree with its plain meaning. */
  lemma {:induction false} AfterAgrees(ops: seq<Request>)
    ensures Agrees(After(ops).spec, ops)
  {
    hide Agrees, Step;
    if ops == [] {
      RunStarts();
    } else {
      var init, op := ops[..|ops| - 1], ops[|ops| - 1];
      assert init + [op] == ops;
      AfterAgrees(init);
      StepAgrees(After(init).spec, init, op);
      StepIs(After(init), op);
    }
  }

  /** Inserts and removes of a keyword. */
  function Updates(ops: seq<Request>, w: string): nat {
    if ops == [] then 0
    else Updates(ops[..|ops| - 1], w) + if !ops[|ops| - 1].Query? && ops[|ops| - 1].keyword == w then 1 else 0
  }

  /** No access counter is above the number of updates. */
  ghost predicate AccessWithin(c: Counters, w: string, n: nat) {
    && (w in c.access ==> 1 <= c.access[w] <= n) && (w in c.spec ==> w in c.access)
    && forall j :: 0 <= j < |SlotsOf(c.spec, w).acc| ==> SlotsOf(c.spec, w).acc[j] <= n
  }

  lemma {:induction false} AccessBounded(ops: seq<Request>, w: string)
    ensures AccessWithin(After(ops), w, Updates(ops, w))
  {
    if ops != [] {
      AccessBounded(ops[..|ops| - 1], w);
      hide IndexOf;
    }
  }

  /** Distinct ids that are exactly the live ones: as many, and each once. */
  lemma {:induction false} IdsAreLive(ids: seq<int>, live: set<int>)
    requires Distinct(ids) && forall x :: x in ids <==> x in live
    ensures multiset(ids) == multiset(live) && |ids| == |live|
  {
    if ids == [] {
      forall x ensures x !in live { assert x !in ids; }
      EmptySet(live);
    } else {
      var n := |ids| - 1;
      assert ids == ids[..n] + [ids[n]];
      forall x ensures x in ids[..n] <==> x in live - {ids[n]} {
        assert x in ids <==> x in ids[..n] || x == ids[n];
      }
      assert ids[n] in live;
      IdsAreLive(ids[..n], live - {ids[n]});
    }
  }

  /** What one search gave: the ids and how often it read from the store. */
  datatype Answer = Answer(ids: seq<int>, rounds: nat)

  const NoAnswer := Answer([], 0)

  /** Each live id exactly once, within ceil(log2 n) + 4 batch reads after n updates
      of the keyword. */
  ghost predicate Owed(ops: seq<Request>, w: string, answer: Answer) {
    && multiset(answer.ids) == multiset(Live(ops, w))
    && Updates(ops, w) >= 1 && answer.rounds <= CeilLog2(Updates(ops, w)) + 4
  }

  /** Batch reads of all searches together. */
  function Rounds(answers: seq<Answer>): nat {
    if answers == [] then 0 else Rounds(answers[..|answers| - 1]) + answers[|answers| - 1].rounds
  }

  lemma RoundsStep(answers: seq<Answer>, a: Answer)
    ensures Rounds(answers + [a]) == Rounds(answers) + a.rounds && Rounds([]) == 0
  {
    assert (answers + [a])[..|answers|] == answers;
  }

  /** Every run of inserts, removes and searches goes on to the first operation whose
      boxes are not within the write budget. Up to there every search of a keyword
      ever inserted returns, each once, the ids with an insert that no later remove
      has undone, within ceil(log2 n) + 4 batch reads after n updates of the keyword;
      these are all the batch reads that the store has seen. */
  method Run(maxSize: nat, generate: Bid -> int, ops: seq<Request>) returns (answers: seq<Answer>, oram: Oram)
    requires maxSize >= 1
    requires forall id :: 0 <= generate(id) < Pow2(FloorLog2(maxSize))
    ensures |answers| <= |ops| && Total(ops[..|answers|]) <= Z * (Pow2(FloorLog2(maxSize) + 1) - 1)
    ensures |answers| < |ops| ==> Total(ops[..|answers| + 1]) > Z * (Pow2(FloorLog2(maxSize) + 1) - 1)
    ensures |answers| == |ops| || !ops[|answers|].Query? ==> oram.batches == Rounds(answers)
    ensures forall k :: 0 <= k < |answers| && ops[k].Query? && Known(ops, k, ops[k].keyword) ==>
              && Distinct(answers[k].ids)
              && var n := |set j: nat | j < k && !ops[j].Query? && ops[j].keyword == ops[k].keyword|;
              n >= 1 && answers[k].rounds <= CeilLog2(n) + 4
    ensures forall k, id :: 0 <= k < |answers| && ops[k].Query? && Known(ops, k, ops[k].keyword) ==>
              (id in answers[k].ids <==>
               exists j :: 0 <= j < k && ops[j] == Put(ops[k].keyword, id)
                           && forall m :: j < m < k ==> ops[m] != Drop(ops[k].keyword, id))
  {
    hide Scheme.Valid, Oram.Valid, After, Total, Live, Seen, CeilLog2, FloorLog2, Pow2, AfterPut, AfterDrop, AfterQuery,
         PutCost, DropCost, QueryCost, Owed, Rounds, Known;
    answers, oram := Serve(maxSize, generate, ops);
    forall k | 0 <= k < |answers| && ops[k].Query? && Known(ops, k, ops[k].keyword)
      ensures Distinct(answers[k].ids)
      ensures var n := |set j: nat | j < k && !ops[j].Query? && ops[j].keyword == ops[k].keyword|;
              n >= 1 && answers[k].rounds <= CeilLog2(n) + 4
      ensures forall id :: id in answers[k].ids <==>
                exists j :: 0 <= j < k && ops[j] == Put(ops[k].keyword, id)
                            && forall m :: j < m < k ==> ops[m] != Drop(ops[k].keyword, id) {
      SeenMeans(ops, k, ops[k].keyword);
      OwedMeans(ops, k, ops[k].keyword, answers[k]);
    }
  }

  /** Was the keyword inserted before operation k? */
  ghost predicate Known(ops: seq<Request>, k: nat, w: string)
    requires k <= |ops|
  {
    exists j :: 0 <= j < k && ops[j].Put? && ops[j].keyword == w
  }

  /** The run with the plain meaning kept operation by operation. */
  method Serve(maxSize: nat, generate: Bid -> int, ops: seq<Request>) returns (answers: seq<Answer>, oram: Oram)
    requires maxSize >= 1
    requires forall id :: 0 <= generate(id) < Pow2(FloorLog2(maxSize))
    ensures |answers| <= |ops| && Total(ops[..|answers|]) <= Z * (Pow2(FloorLog2(maxSize) + 1) - 1)
    ensures |answers| < |ops| ==> Total(ops[..|answers| + 1]) > Z * (Pow2(FloorLog2(maxSize) + 1) - 1)
    ensures |answers| == |ops| || !ops[|answers|].Query? ==> oram.batches == Rounds(answers)
    ensures forall k :: 0 <= k < |answers| && ops[k].Query? && Seen(ops[..k], ops[k].keyword) ==>
              Owed(ops[..k], ops[k].keyword, answers[k])
  {
    hide Scheme.Valid, Oram.Valid, After, Total, Live, Seen, CeilLog2, FloorLog2, Pow2, AfterPut, AfterDrop, AfterQuery,
         PutCost, DropCost, QueryCost, Owed, Rounds;
    answers := [];
    oram := new Oram(maxSize * 4, generate);
    var horus := new Scheme(oram, generate);
    assert ops[..0] == [];
    RunStarts();
    RoundsStep([], NoAnswer);
    ghost var full := oram.budget;
    for k := 0 to |ops|
      invariant |answers| == k && fresh(horus) && fresh(oram) && horus.oram == oram
      invariant horus.Valid() && horus.Counters() == After(ops[..k])
      invariant oram.budget + Total(ops[..k]) == full && oram.batches == Rounds(answers)
      invariant forall j :: 0 <= j < k && ops[j].Query? && Seen(ops[..j], ops[j].keyword) ==>
                  Owed(ops[..j], ops[j].keyword, answers[j])
    {
      RunStep(ops, k);
      var answer, ok := NoAnswer, true;
      match ops[k] {
        case Put(w, ind) =>
          ok := horus.Insert(w, ind);
        case Drop(w, ind) =>
          var known;
          known, ok := horus.Remove(w, ind);
        case Query(w) =>
          QueryAgrees(ops[..k], w);
          var known, ids, rounds;
          known, ok, ids, rounds := horus.Search(w);
          answer := Answer(ids, rounds);
          if ok && known { AnswerOwed(ops[..k], w, answer); }
      }
      if !ok { return; }
      RoundsStep(answers, answer);
      answers := answers + [answer];
    }
    assert ops[..|ops|] == ops;
  }

  // ----- what is owed, by positions -----

  lemma {:induction false} SeenMeans(ops: seq<Request>, k: nat, w: string)
    requires k <= |ops|
    ensures Seen(ops[..k], w) <==> Known(ops, k, w)
  {
    if k > 0 {
      SeenMeans(ops, k - 1, w);
      assert ops[..k][..k - 1] == ops[..k - 1];
      KnownStep(ops, k, w);
    }
  }

  lemma KnownStep(ops: seq<Request>, k: nat, w: string)
    requires 1 <= k <= |ops|
    ensures Known(ops, k, w) <==> Known(ops, k - 1, w) || (ops[k - 1].Put? && ops[k - 1].keyword == w)
  {
  }

  /** An insert of the id that no remove before k has undone. */
  ghost predicate Standing(ops: seq<Request>, k: nat, w: string, id: int, j: int)
    requires k <= |ops|
  {
    0 <= j < k && ops[j] == Put(w, id) && forall m :: j < m < k ==> ops[m] != Drop(w, id)
  }

  lemma {:induction false} LiveMeans(ops: seq<Request>, k: nat, w: string, id: int)
    requires k <= |ops|
    ensures id in Live(ops[..k], w) <==> exists j :: Standing(ops, k, w, id, j)
  {
    if k > 0 {
      LiveMeans(ops, k - 1, w, id);
      LiveStep(ops, k, w, id);
      if id in Live(ops[..k], w) {
        if ops[k - 1] == Put(w, id) {
          assert Standing(ops, k, w, id, k - 1);
        } else {
          var j :| Standing(ops, k - 1, w, id, j);
          assert Standing(ops, k, w, id, j);
        }
      }
      if j :| Standing(ops, k, w, id, j) {
        if j < k - 1 { assert Standing(ops, k - 1, w, id, j); }
      }
    }
  }

  lemma LiveStep(ops: seq<Request>, k: nat, w: string, id: int)
    requires 1 <= k <= |ops|
    ensures id in Live(ops[..k], w) <==>
            ops[k - 1] == Put(w, id) || (id in Live(ops[..k - 1], w) && ops[k - 1] != Drop(w, id))
  {
    assert ops[..k][..k - 1] == ops[..k - 1];
  }

  lemma UpdatesStep(ops: seq<Request>, k: nat, w: string)
    requires k <= |ops|
    ensures k == 0 ==> Updates(ops[..k], w) == 0
    ensures k > 0 ==>
              var own := if !ops[k - 1].Query? && ops[k - 1].keyword == w then 1 else 0;
              Updates(ops[..k], w) == Updates(ops[..k - 1], w) + own
  {
    if k > 0 { assert ops[..k][..k - 1] == ops[..k - 1]; }
  }

  lemma {:induction false} UpdatesMean(ops: seq<Request>, k: nat, w: string)
    requires k <= |ops|
    ensures Updates(ops[..k], w) == |set j: nat | j < k && !ops[j].Query? && ops[j].keyword == w|
  {
    hide Updates;
    var here := set j: nat | j < k && !ops[j].Query? && ops[j].keyword == w;
    UpdatesStep(ops, k, w);
    if k == 0 {
      assert here == {};
    } else {
      UpdatesMean(ops, k - 1, w);
      var before := set j: nat | j < k - 1 && !ops[j].Query? && ops[j].keyword == w;
      var own := !ops[k - 1].Query? && ops[k - 1].keyword == w;
      forall j: nat ensures j in here <==> j in before || (own && j == k - 1) {
      }
      CountNext(before, here, k - 1, own);
    }
  }

  lemma OwedMeans(ops: seq<Request>, k: nat, w: string, answer: Answer)
    requires k <= |ops| && Owed(ops[..k], w, answer)
    ensures Distinct(answer.ids)
    ensures var n := |set j: nat | j < k && !ops[j].Query? && ops[j].keyword == w|;
            n >= 1 && answer.rounds <= CeilLog2(n) + 4
    ensures forall id :: id in answer.ids <==>
              exists j :: 0 <= j < k && ops[j] == Put(w, id) && forall m :: j < m < k ==> ops[m] != Drop(w, id)
  {
    hide Live, Updates, CeilLog2;
    UpdatesMean(ops, k, w);
    OnceEach(answer.ids, Live(ops[..k], w));
    forall id ensures id in answer.ids <==>
        exists j :: 0 <= j < k && ops[j] == Put(w, id) && forall m :: j < m < k ==> ops[m] != Drop(w, id) {
      LiveMeans(ops, k, w, id);
      if j :| Standing(ops, k, w, id, j) { assert ops[j] == Put(w, id); }
      if j :| 0 <= j < k && ops[j] == Put(w, id) && forall m :: j < m < k ==> ops[m] != Drop(w, id) {
        assert Standing(ops, k, w, id, j);
      }
    }
  }

  lemma OnceEach(ids: seq<int>, live: set<int>)
    requires multiset(ids) == multiset(live)
    ensures Distinct(ids) && forall x :: x in ids <==> x in live
  {
    forall x ensures x in ids <==> x in live { assert x in multiset(ids) <==> x in multiset(live); }
    forall i, j | 0 <= i < j < |ids| ensures ids[i] != ids[j] {
      assert ids == ids[..i] + [ids[i]] + ids[i + 1..j] + [ids[j]] + ids[j + 1..];
      assert multiset(live)[ids[i]] <= 1;
    }
  }

  lemma AnswerOwed(ops: seq<Request>, w: string, answer: Answer)
    requires w in After(ops).spec && multiset(answer.ids) == multiset(After(ops).spec[w].ids)
    requires w in After(ops).access && After(ops).access[w] >= 1
    requires answer.rounds <= CeilLog2(After(ops).access[w]) + 4
    ensures Owed(ops, w, answer)
  {
    hide After, Live, CeilLog2, Updates;
    QueryAgrees(ops, w);
    AccessBounded(ops, w);
    CeilLog2Monotone(After(ops).access[w], Updates(ops, w));
  }

  lemma QueryAgrees(ops: seq<Request>, w: string)
    ensures w in After(ops).spec <==> Seen(ops, w)
    ensures w in After(ops).spec ==> multiset(After(ops).spec[w].ids) == multiset(Live(ops, w))
  {
    hide Agrees, After, Live, Seen;
    AfterAgrees(ops);
    AgreesAt(After(ops).spec, ops, w);
  }

  lemma RunStarts()
    ensures Agrees(map[], []) && After([]) == Counters(map[], map[], map[]) && Total([]) == 0
  {
  }

  lemma StepIs(c: Counters, op: Request)
    ensures Step(c.spec, op) == match op
      case Put(w, ind) => AfterPut(c, w, ind).spec
      case Drop(w, ind) => AfterDrop(c, w, ind).spec
      case Query(w) => AfterQuery(c, w).spec
  {
  }

  lemma AgreesAt(sp: Spec, ops: seq<Request>, w: string)
    requires Agrees(sp, ops)
    ensures w in sp <==> Seen(ops, w)
    ensures w in sp ==> multiset(sp[w].ids) == multiset(Live(ops, w)) && |sp[w].ids| == |Live(ops, w)|
  {
    assert SlotsAgree(SlotsOf(sp, w), Live(ops, w));
    if w in sp { IdsAreLive(sp[w].ids, Live(ops, w)); }
  }
}

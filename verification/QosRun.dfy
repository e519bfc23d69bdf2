/** Whole runs of QOS. */
module QosRun {
  import opened Powers
  import opened Collections
  import opened QosCover
  import opened QosServer
  import opened QosState
  import opened QosClient

  datatype Request = Put(keyword: string, id: int) | Drop(keyword: string, id: int, nonce: int) | Query(keyword: string)

  ghost predicate Wellformed(sp: Spec) {
    sp.ids.Keys == sp.dead.Keys
  }

  ghost function Step(sp: Spec, op: Request): Spec {
    match op
    case Put(w, id) => SpecInsert(sp, w, id)
    case Drop(w, id, _) => if w in sp.ids && w in sp.dead && id in sp.ids[w] then SpecRemove(sp, w, id) else sp
    case Query(_) => sp
  }

  /** What the specification says after a run. */
  ghost function After(ops: seq<Request>): Spec {
    if ops == [] then Spec(map[], map[]) else Step(After(ops[..|ops| - 1]), ops[|ops| - 1])
  }

  ghost predicate Fits(sp: Spec, n: nat) {
    forall w :: w in sp.ids ==> |sp.ids[w]| <= n
  }

  lemma StepShrinksBack(sp: Spec, op: Request, n: nat)
    requires Wellformed(sp) && Fits(Step(sp, op), n)
    ensures Fits(sp, n) && Wellformed(Step(sp, op))
    ensures op.Put? && op.keyword in sp.ids ==> |sp.ids[op.keyword]| < n
  {
    hide LastIndexOf;
    forall w | w in sp.ids ensures |sp.ids[w]| <= n {
      assert w in Step(sp, op).ids;
    }
    if op.Put? { assert op.keyword in Step(sp, op).ids; }
  }

  lemma {:induction false} AfterWellformed(ops: seq<Request>)
    ensures Wellformed(After(ops))
  {
    hide LastIndexOf;
    if ops != [] { AfterWellformed(ops[..|ops| - 1]); }
  }

  lemma AfterStep(ops: seq<Request>, k: nat)
    requires k < |ops|
    ensures After(ops[..k + 1]) == Step(After(ops[..k]), ops[k])
  {
    assert ops[..k + 1][..k] == ops[..k];
  }

  lemma {:induction false} PrefixFits(ops: seq<Request>, k: nat, n: nat)
    requires k <= |ops| && Fits(After(ops), n)
    ensures Fits(After(ops[..k]), n)
    decreases |ops|
  {
    hide Fits, Step, After;
    if k < |ops| {
      var init := ops[..|ops| - 1];
      AfterStep(ops, |ops| - 1);
      assert ops[..|ops|] == ops;
      AfterWellformed(init);
      StepShrinksBack(After(init), ops[|ops| - 1], n);
      PrefixFits(init, k, n);
      assert init[..k] == ops[..k];
    } else {
      assert ops[..k] == ops;
    }
  }

  /** What one search gave: the ids, the server's recursive calls, and how often
      it reported data already removed. */
  datatype Answer = Answer(ids: seq<int>, calls: nat, missing: nat)

  const NoAnswer := Answer([], 0, 0)

  /** Recursive calls of all searches together. */
  function Calls(answers: seq<Answer>): nat {
    if answers == [] then 0 else Calls(answers[..|answers| - 1]) + answers[|answers| - 1].calls
  }

  lemma CallsStep(answers: seq<Answer>, a: Answer)
    ensures Calls(answers + [a]) == Calls(answers) + a.calls && Calls([]) == 0
  {
    assert (answers + [a])[..|answers|] == answers;
  }

  /** For every run of inserts, removes (repeats included) and searches with at
      most 2^h inserts per keyword, the number of leaves of the tree, every search
      returns, in the order of their insertion, the ids of exactly the inserts whose
      id was not removed while it was the last insert of that id; at has their
      positions in the run. "Already removed" is never reported, and the visits stay
      within their bound, which are all the recursive calls that the server has seen. */
  method Run(N: nat, ops: seq<Request>) returns (answers: seq<Answer>, server: Server, ghost at: seq<seq<int>>)
    requires N >= 1
    requires forall w :: Inserts(ops, w) <= Pow2(CeilLog2(N))
    ensures |answers| == |ops| == |at| && server.visits == Calls(answers)
    ensures forall k :: 0 <= k < |ops| && ops[k].Query? ==> answers[k].missing == 0
    ensures forall k :: 0 <= k < |ops| && ops[k].Query? && Known(ops, k, ops[k].keyword) ==>
              var n := |set j: nat | j < k && ops[j].Put? && ops[j].keyword == ops[k].keyword|;
              n >= 1 && answers[k].calls <= FloorLog2(n) + 1 + 2 * (|answers[k].ids| * CeilLog2(N))
    ensures forall k :: 0 <= k < |ops| && ops[k].Query? && Known(ops, k, ops[k].keyword) ==>
              && |answers[k].ids| == |at[k]| && Ascending(at[k])
              && forall i :: 0 <= i < |at[k]| ==>
                   0 <= at[k][i] < k && ops[at[k][i]] == Put(ops[k].keyword, answers[k].ids[i])
    ensures forall k, j :: 0 <= k < |ops| && ops[k].Query? && Known(ops, k, ops[k].keyword) ==>
              (j in at[k] <==>
               && 0 <= j < k && ops[j].Put? && ops[j].keyword == ops[k].keyword
               && forall m | j < m < k && ops[m].Drop? && (ops[m].keyword, ops[m].id) == (ops[j].keyword, ops[j].id) ::
                    exists i :: j < i < m && ops[i] == ops[j])
  {
    hide *;
    FitsMeans(ops, Pow2(CeilLog2(N)));
    answers, server := Serve(N, ops);
    at := seq(|ops|, k requires 0 <= k < |ops| => LiveAt(ops, k, ops[k].keyword));
    forall k | 0 <= k < |ops| && ops[k].Query? ensures Explained(ops, k, CeilLog2(N), answers[k], at[k]) {
      OwedExplained(ops, k, CeilLog2(N), answers[k]);
    }
    ExplainedMeans(ops, CeilLog2(N), answers, at);
  }

  /** The run against the specification. */
  method Serve(N: nat, ops: seq<Request>) returns (answers: seq<Answer>, server: Server)
    requires N >= 1 && Fits(After(ops), Pow2(CeilLog2(N)))
    ensures |answers| == |ops| && server.visits == Calls(answers)
    ensures forall k :: 0 <= k < |ops| && ops[k].Query? ==>
              Owed(After(ops[..k]), CeilLog2(N), ops[k].keyword, answers[k])
  {
    hide Fits, After, Wellformed, Client.Valid, LiveIds, LastIndexOf, Owed, CoverFrom, Pow2, CeilLog2, Calls;
    answers := [];
    server := new Server(N);
    var client := new Client(server, N);
    assert ops[..0] == [];
    AfterEmpty();
    CallsStep([], NoAnswer);
    for k := 0 to |ops|
      invariant |answers| == k && fresh(client) && fresh(server) && client.server == server && client.h == CeilLog2(N)
      invariant client.Valid() && client.spec == After(ops[..k]) && server.visits == Calls(answers)
      invariant forall j :: 0 <= j < k && ops[j].Query? ==>
                  Owed(After(ops[..j]), CeilLog2(N), ops[j].keyword, answers[j])
    {
      AfterStep(ops, k);
      AfterWellformed(ops[..k]);
      PrefixFits(ops, k + 1, Pow2(CeilLog2(N)));
      StepShrinksBack(After(ops[..k]), ops[k], Pow2(CeilLog2(N)));
      SameKeywords(After(ops[..k]));
      var answer := NoAnswer;
      match ops[k] {
        case Put(w, id) =>
          client.Insert(w, id);
        case Drop(w, id, nonce) =>
          var ok := client.Remove(w, id, nonce);
        case Query(w) =>
          var ok, ids, calls, missing := client.Search(w);
          answer := Answer(ids, calls, missing);
          OwedIntro(After(ops[..k]), CeilLog2(N), w, answer);
      }
      CallsStep(answers, answer);
      answers := answers + [answer];
    }
  }

  /** The answer owed for a keyword; for one never inserted only that nothing is
      reported missing. With n positions and live ones among them, the calls are
      at most floor(log2 n) + 1 + 2 * live * h. */
  ghost predicate Owed(sp: Spec, h: nat, w: string, answer: Answer) {
    && answer.missing == 0
    && (w in sp.ids && w in sp.dead ==>
          && answer.ids == LiveIds(sp.ids[w], sp.dead[w])
          && (|sp.ids[w]| >= 1 ==>
                answer.calls <= FloorLog2(|sp.ids[w]|) + 1 + 2 * (|answer.ids| * h)))
  }

  lemma OwedIntro(sp: Spec, h: nat, w: string, answer: Answer)
    requires answer.missing == 0
    requires w in sp.ids && w in sp.dead ==>
      && answer.ids == LiveIds(sp.ids[w], sp.dead[w])
      && answer.calls <= |CoverFrom(Pow2(h), Pow2(h) + |sp.ids[w]|)| + 2 * (|answer.ids| * h)
    ensures Owed(sp, h, w, answer)
  {
    hide LiveIds, CoverFrom, FloorLog2, Pow2;
    if w in sp.ids { CoverShort(Pow2(h), Pow2(h) + |sp.ids[w]|); }
  }

  lemma SameKeywords(sp: Spec)
    requires Wellformed(sp)
    ensures forall w :: w in sp.ids <==> w in sp.dead
  {
  }

  lemma AfterEmpty()
    ensures After([]) == Spec(map[], map[])
  {
  }

  // ----- the specification, by positions -----

  /** Was the keyword inserted before operation k? */
  ghost predicate Known(ops: seq<Request>, k: nat, w: string)
    requires k <= |ops|
  {
    exists j :: 0 <= j < k && ops[j].Put? && ops[j].keyword == w
  }

  /** The inserts of a keyword before operation k, in order. */
  ghost function Puts(ops: seq<Request>, k: nat, w: string): seq<int>
    requires k <= |ops|
  {
    if k == 0 then []
    else Puts(ops, k - 1, w) + if ops[k - 1].Put? && ops[k - 1].keyword == w then [k - 1] else []
  }

  /** How often a keyword is inserted in the run. */
  ghost function Inserts(ops: seq<Request>, w: string): nat {
    |set j: nat | j < |ops| && ops[j].Put? && ops[j].keyword == w|
  }

  lemma {:induction false} PutsMean(ops: seq<Request>, k: nat, w: string)
    requires k <= |ops|
    ensures Ascending(Puts(ops, k, w))
    ensures forall j :: j in Puts(ops, k, w) <==> 0 <= j < k && ops[j].Put? && ops[j].keyword == w
  {
    if k > 0 {
      PutsMean(ops, k - 1, w);
      var init := Puts(ops, k - 1, w);
      forall i | 0 <= i < |init| ensures init[i] < k - 1 { assert init[i] in init; }
      if ops[k - 1].Put? && ops[k - 1].keyword == w { assert Puts(ops, k, w) == init + [k - 1]; }
    }
  }

  lemma {:induction false} PutsCount(ops: seq<Request>, k: nat, w: string)
    requires k <= |ops|
    ensures |Puts(ops, k, w)| == |set j: nat | j < k && ops[j].Put? && ops[j].keyword == w|
  {
    var here := set j: nat | j < k && ops[j].Put? && ops[j].keyword == w;
    if k == 0 {
      assert here == {};
    } else {
      PutsCount(ops, k - 1, w);
      var before := set j: nat | j < k - 1 && ops[j].Put? && ops[j].keyword == w;
      var own := ops[k - 1].Put? && ops[k - 1].keyword == w;
      forall j: nat ensures j in here <==> j in before || (own && j == k - 1) {
      }
      CountNext(before, here, k - 1, own);
    }
  }

  /** Operation m removes what the insert at j stored: no insert of the same id lies
      between. */
  ghost predicate RemovedBy(ops: seq<Request>, j: int, m: int)
    requires 0 <= j < m < |ops|
  {
    && ops[m].Drop? && ops[j].Put? && ops[m].keyword == ops[j].keyword && ops[m].id == ops[j].id
    && forall i :: j < i < m ==> ops[i] != ops[j]
  }

  ghost predicate Undone(ops: seq<Request>, k: nat, j: int)
    requires k <= |ops| && 0 <= j < k
  {
    exists m :: j < m < k && RemovedBy(ops, j, m)
  }

  lemma UndoneStep(ops: seq<Request>, k: nat, j: int)
    requires 0 <= j < k < |ops|
    ensures Undone(ops, k + 1, j) <==> Undone(ops, k, j) || RemovedBy(ops, j, k)
  {
  }

  /** Position p of a keyword belongs to its insert number p, and is dead if that
      insert is undone. */
  ghost predicate Tells(ids: seq<int>, dead: set<nat>, ops: seq<Request>, k: nat, puts: seq<int>, p: nat)
    requires k <= |ops| && p < |puts| && p < |ids|
  {
    && 0 <= puts[p] < k && ops[puts[p]].Put? && ids[p] == ops[puts[p]].id
    && (p in dead <==> Undone(ops, k, puts[p]))
  }

  ghost predicate Told(sp: Spec, ops: seq<Request>, k: nat, w: string)
    requires k <= |ops|
  {
    var puts := Puts(ops, k, w);
    && (w in sp.ids <==> puts != []) && (w in sp.dead <==> puts != [])
    && (w in sp.ids && w in sp.dead ==>
          && |sp.ids[w]| == |puts| && (forall p :: p in sp.dead[w] ==> p < |puts|)
          && forall p :: 0 <= p < |puts| ==> Tells(sp.ids[w], sp.dead[w], ops, k, puts, p))
  }

  lemma {:induction false} AfterTold(ops: seq<Request>, k: nat, w: string)
    requires k <= |ops|
    ensures Told(After(ops[..k]), ops, k, w)
  {
    hide Told, Step;
    if k == 0 {
      assert ops[..0] == [];
      ToldNothing(ops, w);
    } else {
      AfterTold(ops, k - 1, w);
      AfterStep(ops, k - 1);
      AfterWellformed(ops[..k - 1]);
      ToldStep(After(ops[..k - 1]), ops, k - 1, w);
    }
  }

  lemma ToldNothing(ops: seq<Request>, w: string)
    ensures After([]) == Spec(map[], map[]) && Told(After([]), ops, 0, w)
  {
  }

  lemma ToldStep(sp: Spec, ops: seq<Request>, k: nat, w: string)
    requires k < |ops| && Told(sp, ops, k, w) && Wellformed(sp)
    ensures Told(Step(sp, ops[k]), ops, k + 1, w)
  {
    hide *;
    if ops[k].keyword == w && ops[k].Put? {
      ToldPut(sp, ops, k, w);
    } else if ops[k].keyword == w && ops[k].Drop? {
      ToldDrop(sp, ops, k, w);
    } else {
      StepElsewhere(sp, ops[k], w);
      ToldSame(sp, Step(sp, ops[k]), ops, k, w);
    }
  }

  ghost predicate SameOf(sp: Spec, sp': Spec, w: string) {
    && (w in sp'.ids <==> w in sp.ids) && (w in sp'.dead <==> w in sp.dead)
    && (w in sp.ids && w in sp.dead ==> sp'.ids[w] == sp.ids[w] && sp'.dead[w] == sp.dead[w])
  }

  lemma StepElsewhere(sp: Spec, op: Request, w: string)
    requires (op.keyword == w ==> op.Query?) && Wellformed(sp)
    ensures SameOf(sp, Step(sp, op), w)
  {
    hide LastIndexOf;
  }

  lemma ToldSame(sp: Spec, sp': Spec, ops: seq<Request>, k: nat, w: string)
    requires k < |ops| && Told(sp, ops, k, w) && SameOf(sp, sp', w) && (ops[k].keyword == w ==> ops[k].Query?)
    ensures Told(sp', ops, k + 1, w)
  {
    hide Undone, RemovedBy;
    PutsMean(ops, k, w);
    var puts := Puts(ops, k, w);
    assert Puts(ops, k + 1, w) == puts;
    if w in sp.ids && w in sp.dead {
      var ids, dead, now: nat := sp.ids[w], sp.dead[w], k + 1;
      forall p | 0 <= p < |puts| ensures Tells(ids, dead, ops, now, puts, p) {
        assert puts[p] in puts && Tells(ids, dead, ops, k, puts, p);
        UndoneStep(ops, k, puts[p]);
        NotRemoved(ops, puts[p], k);
      }
    }
  }

  lemma NotRemoved(ops: seq<Request>, j: int, m: int)
    requires 0 <= j < m < |ops|
    ensures !ops[m].Drop? || ops[m].keyword != ops[j].keyword ==> !RemovedBy(ops, j, m)
  {
  }

  lemma ToldPut(sp: Spec, ops: seq<Request>, k: nat, w: string)
    requires k < |ops| && Told(sp, ops, k, w) && Wellformed(sp) && ops[k].Put? && ops[k].keyword == w
    ensures Told(Step(sp, ops[k]), ops, k + 1, w)
  {
    hide Undone, RemovedBy, LastIndexOf;
    PutsMean(ops, k, w);
    var puts, sp' := Puts(ops, k, w), Step(sp, ops[k]);
    var puts', ids', dead' := Puts(ops, k + 1, w), sp'.ids[w], sp'.dead[w];
    assert puts' == puts + [k];
    var now: nat := k + 1;
    NeverUndone(ops, k);
    forall p | 0 <= p < |puts'| ensures Tells(ids', dead', ops, now, puts', p) {
      if p < |puts| {
        assert Tells(sp.ids[w], sp.dead[w], ops, k, puts, p);
        UndoneStep(ops, k, puts[p]);
        NotRemoved(ops, puts[p], k);
      }
    }
  }

  lemma NeverUndone(ops: seq<Request>, k: nat)
    requires k < |ops|
    ensures !Undone(ops, k + 1, k)
  {
  }

  lemma ToldDrop(sp: Spec, ops: seq<Request>, k: nat, w: string)
    requires k < |ops| && Told(sp, ops, k, w) && Wellformed(sp) && ops[k].Drop? && ops[k].keyword == w
    ensures Told(Step(sp, ops[k]), ops, k + 1, w)
  {
    hide Undone, RemovedBy, LastIndexOf;
    PutsMean(ops, k, w);
    var puts, id, sp' := Puts(ops, k, w), ops[k].id, Step(sp, ops[k]);
    assert Puts(ops, k + 1, w) == puts;
    if w in sp.ids {
      var ids', dead' := sp'.ids[w], sp'.dead[w];
      var now: nat := k + 1;
      forall p | 0 <= p < |puts| ensures Tells(ids', dead', ops, now, puts, p) {
        assert Tells(sp.ids[w], sp.dead[w], ops, k, puts, p);
        assert puts[p] in puts;
        UndoneStep(ops, k, puts[p]);
        LastIsRemoved(sp, ops, k, w, p);
      }
    }
  }

  /** A remove takes the insert at the last position of its id. */
  lemma LastIsRemoved(sp: Spec, ops: seq<Request>, k: nat, w: string, p: nat)
    requires k < |ops| && Told(sp, ops, k, w) && w in sp.ids && w in sp.dead
    requires ops[k].Drop? && ops[k].keyword == w && p < |sp.ids[w]| && 0 <= Puts(ops, k, w)[p] < k
    ensures RemovedBy(ops, Puts(ops, k, w)[p], k) <==>
            ops[k].id in sp.ids[w] && p == LastIndexOf(sp.ids[w], ops[k].id)
  {
    hide Undone;
    PutsMean(ops, k, w);
    var puts, ids, id := Puts(ops, k, w), sp.ids[w], ops[k].id;
    var j := puts[p];
    assert j in puts && Tells(ids, sp.dead[w], ops, k, puts, p);
    if id in ids {
      var last := LastIndexOf(ids, id);
      assert puts[last] in puts && Tells(ids, sp.dead[w], ops, k, puts, last);
      if p == last {
        forall i | j < i < k ensures ops[i] != ops[j] {
          if i in puts {
            var q :| 0 <= q < |puts| && puts[q] == i;
            assert Tells(ids, sp.dead[w], ops, k, puts, q);
            assert q > last;
          }
        }
      } else if ids[p] == id {
        assert p < last && ops[puts[last]] == ops[j];
      }
    }
  }

  // ----- the answer, by positions -----

  /** The inserts at the positions not removed. */
  ghost function Picked(puts: seq<int>, dead: set<nat>): seq<int> {
    if puts == [] then []
    else
      var n := |puts| - 1;
      Picked(puts[..n], dead) + if n in dead then [] else [puts[n]]
  }

  ghost function LiveAt(ops: seq<Request>, k: nat, w: string): seq<int>
    requires k <= |ops|
  {
    var sp := After(ops[..k]);
    Picked(Puts(ops, k, w), if w in sp.dead then sp.dead[w] else {})
  }

  lemma {:induction false} PickedMembers(puts: seq<int>, dead: set<nat>, j: int)
    ensures j in Picked(puts, dead) <==> exists p :: 0 <= p < |puts| && puts[p] == j && p !in dead
  {
    if puts != [] {
      var n := |puts| - 1;
      var init := puts[..n];
      PickedMembers(init, dead, j);
      assert j in Picked(puts, dead) <==> j in Picked(init, dead) || (n !in dead && puts[n] == j);
      hide Picked;
      if p :| 0 <= p < n && init[p] == j && p !in dead { assert puts[p] == j; }
      if p :| 0 <= p < n && puts[p] == j && p !in dead { assert init[p] == j; }
    }
  }

  lemma {:induction false} PickedAscending(puts: seq<int>, dead: set<nat>)
    requires Ascending(puts)
    ensures Ascending(Picked(puts, dead))
  {
    if puts != [] {
      var n := |puts| - 1;
      PickedAscending(puts[..n], dead);
      var init := Picked(puts[..n], dead);
      forall i | 0 <= i < |init| ensures init[i] < puts[n] {
        assert init[i] in init;
        PickedMembers(puts[..n], dead, init[i]);
      }
    }
  }

  lemma PickedMeans(puts: seq<int>, dead: set<nat>)
    requires Ascending(puts)
    ensures Ascending(Picked(puts, dead))
    ensures forall j :: j in Picked(puts, dead) <==> exists p :: 0 <= p < |puts| && puts[p] == j && p !in dead
  {
    hide Picked;
    PickedAscending(puts, dead);
    forall j ensures j in Picked(puts, dead) <==> exists p :: 0 <= p < |puts| && puts[p] == j && p !in dead {
      PickedMembers(puts, dead, j);
    }
  }

  /** The live ids are the ids of these inserts. */
  lemma {:induction false} PickedIds(ops: seq<Request>, puts: seq<int>, ids: seq<int>, dead: set<nat>, w: string)
    requires |puts| == |ids|
    requires forall p :: 0 <= p < |puts| ==> 0 <= puts[p] < |ops| && ops[puts[p]] == Put(w, ids[p])
    ensures |Picked(puts, dead)| == |LiveIds(ids, dead)|
    ensures forall i :: 0 <= i < |Picked(puts, dead)| ==>
              var j := Picked(puts, dead)[i]; 0 <= j < |ops| && ops[j] == Put(w, LiveIds(ids, dead)[i])
  {
    if puts != [] { PickedIds(ops, puts[..|puts| - 1], ids[..|ids| - 1], dead, w); }
  }

  /** What is said of one answer. */
  ghost predicate Explained(ops: seq<Request>, k: nat, h: nat, answer: Answer, at: seq<int>)
    requires k < |ops|
  {
    var w := ops[k].keyword;
    && answer.missing == 0
    && (Known(ops, k, w) ==>
          && |answer.ids| == |at| && Ascending(at)
          && (forall i :: 0 <= i < |at| ==> 0 <= at[i] < k && ops[at[i]] == Put(w, answer.ids[i]))
          && (forall j :: j in at <==> 0 <= j < k && ops[j].Put? && ops[j].keyword == w && !Undone(ops, k, j))
          && var n := |set j: nat | j < k && ops[j].Put? && ops[j].keyword == w|;
             n >= 1 && answer.calls <= FloorLog2(n) + 1 + 2 * (|answer.ids| * h))
  }

  lemma OwedExplained(ops: seq<Request>, k: nat, h: nat, answer: Answer)
    requires k < |ops| && Owed(After(ops[..k]), h, ops[k].keyword, answer)
    ensures Explained(ops, k, h, answer, LiveAt(ops, k, ops[k].keyword))
  {
    hide Undone, After, LiveIds, FloorLog2, Picked, Puts;
    var w, sp := ops[k].keyword, After(ops[..k]);
    AfterTold(ops, k, w);
    PutsMean(ops, k, w);
    var puts := Puts(ops, k, w);
    if Known(ops, k, w) {
      var j :| 0 <= j < k && ops[j].Put? && ops[j].keyword == w;
      assert j in puts;
      forall p | 0 <= p < |puts| ensures 0 <= puts[p] < k && ops[puts[p]] == Put(w, sp.ids[w][p]) {
        assert puts[p] in puts && Tells(sp.ids[w], sp.dead[w], ops, k, puts, p);
      }
      PickedMeans(puts, sp.dead[w]);
      PickedIds(ops[..k], puts, sp.ids[w], sp.dead[w], w);
      LiveMembers(ops, k, w);
      PutsCount(ops, k, w);
    }
  }

  lemma LiveMembers(ops: seq<Request>, k: nat, w: string)
    requires k <= |ops| && w in After(ops[..k]).ids && w in After(ops[..k]).dead
    ensures forall j :: j in LiveAt(ops, k, w) <==>
              0 <= j < k && ops[j].Put? && ops[j].keyword == w && !Undone(ops, k, j)
  {
    hide Undone, After, Picked, Puts;
    AfterTold(ops, k, w);
    PutsMean(ops, k, w);
    var puts, sp := Puts(ops, k, w), After(ops[..k]);
    PickedMeans(puts, sp.dead[w]);
    forall j ensures j in LiveAt(ops, k, w) <==>
        0 <= j < k && ops[j].Put? && ops[j].keyword == w && !Undone(ops, k, j) {
      if j in puts {
        var p :| 0 <= p < |puts| && puts[p] == j;
        assert Tells(sp.ids[w], sp.dead[w], ops, k, puts, p);
      }
      if j in LiveAt(ops, k, w) {
        var p :| 0 <= p < |puts| && puts[p] == j && p !in sp.dead[w];
        assert Tells(sp.ids[w], sp.dead[w], ops, k, puts, p) && puts[p] in puts;
      }
    }
  }

  lemma UndoneMeans(ops: seq<Request>, k: nat, j: int)
    requires k <= |ops| && 0 <= j < k && ops[j].Put?
    ensures !Undone(ops, k, j) <==>
            forall m :: j < m < k && ops[m].Drop? && ops[m].keyword == ops[j].keyword && ops[m].id == ops[j].id ==>
              exists i :: j < i < m && ops[i] == ops[j]
  {
    if m :| j < m < k && ops[m].Drop? && ops[m].keyword == ops[j].keyword && ops[m].id == ops[j].id
            && !(exists i :: j < i < m && ops[i] == ops[j]) {
      assert RemovedBy(ops, j, m);
    }
  }

  lemma FitsMeans(ops: seq<Request>, n: nat)
    requires forall w :: Inserts(ops, w) <= n
    ensures Fits(After(ops), n)
  {
    hide After, Puts;
    assert ops[..|ops|] == ops;
    forall w | w in After(ops).ids ensures |After(ops).ids[w]| <= n {
      AfterTold(ops, |ops|, w);
      PutsCount(ops, |ops|, w);
      assert |Puts(ops, |ops|, w)| == Inserts(ops, w);
    }
  }

  lemma ExplainedMeans(ops: seq<Request>, h: nat, answers: seq<Answer>, at: seq<seq<int>>)
    requires |answers| == |at| == |ops|
    requires forall k :: 0 <= k < |ops| && ops[k].Query? ==> Explained(ops, k, h, answers[k], at[k])
    ensures forall k :: 0 <= k < |ops| && ops[k].Query? ==> answers[k].missing == 0
    ensures forall k :: 0 <= k < |ops| && ops[k].Query? && Known(ops, k, ops[k].keyword) ==>
              var n := |set j: nat | j < k && ops[j].Put? && ops[j].keyword == ops[k].keyword|;
              n >= 1 && answers[k].calls <= FloorLog2(n) + 1 + 2 * (|answers[k].ids| * h)
    ensures forall k :: 0 <= k < |ops| && ops[k].Query? && Known(ops, k, ops[k].keyword) ==>
              && |answers[k].ids| == |at[k]| && Ascending(at[k])
              && forall i :: 0 <= i < |at[k]| ==>
                   0 <= at[k][i] < k && ops[at[k][i]] == Put(ops[k].keyword, answers[k].ids[i])
    ensures forall k, j :: 0 <= k < |ops| && ops[k].Query? && Known(ops, k, ops[k].keyword) ==>
              (j in at[k] <==>
               && 0 <= j < k && ops[j].Put? && ops[j].keyword == ops[k].keyword
               && forall m | j < m < k && ops[m].Drop? && (ops[m].keyword, ops[m].id) == (ops[j].keyword, ops[j].id) ::
                    exists i :: j < i < m && ops[i] == ops[j])
  {
    hide Known, Undone, FloorLog2;
    forall k, j | 0 <= k < |ops| && ops[k].Query? && Known(ops, k, ops[k].keyword)
      ensures j in at[k] <==>
              && 0 <= j < k && ops[j].Put? && ops[j].keyword == ops[k].keyword
              && forall m | j < m < k && ops[m].Drop? && (ops[m].keyword, ops[m].id) == (ops[j].keyword, ops[j].id) ::
                   exists i :: j < i < m && ops[i] == ops[j] {
      assert Explained(ops, k, h, answers[k], at[k]);
      if 0 <= j < k && ops[j].Put? { UndoneMeans(ops, k, j); }
    }
  }
}

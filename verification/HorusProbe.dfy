/** The binary search that Horus runs in lock step for every slot: it looks for
    the largest access counter under which the slot has a box. */
module HorusProbe {
  import opened Powers
  import opened Bids

  /** left[i], right[i], curValue[i], lastAcc[i], lastID[i] and foundItem[i]. */
  datatype Probe = Probe(left: int, right: int, cur: int, lastAcc: int, lastId: Value, found: bool)

  function Begin(access: int): Probe {
    Probe(1, access, 1, 0, Nothing, false)
  }

  /** The answer to the first read, at counter 1: a forwarding record moves left. */
  function FirstStep(p: Probe, id: Value): Probe {
    if id.At? && p.left == 1 then
      var cur := (id.acc + p.right) / 2;
      p.(left := id.acc, cur := cur, lastAcc := cur)
    else
      p.(cur := (p.left + p.right) / 2)
  }

  /** The answer to any later read. */
  function NextStep(p: Probe, id: Value): Probe {
    if id == Nothing || p.left >= p.right then
      if p.right <= p.left then
        if p.lastId == Nothing then p.(found := true, lastId := id, lastAcc := p.cur) else p.(found := true)
      else if p.cur == p.right then
        var cur := (p.left + p.right) / 2;
        p.(cur := cur, right := cur)
      else
        p.(right := p.cur, cur := (p.left + p.cur + 1) / 2)
    else
      var q := p.(lastId := id, lastAcc := p.cur);
      if p.cur == p.left then q.(cur := (p.left + p.right + 1) / 2)
      else q.(left := p.cur, cur := (p.cur + p.right) / 2)
  }

  /** Where a slot's boxes start: at 1, or where the forwarding record points. */
  function StartOf(first: Value): int {
    if first.At? then first.acc else 1
  }

  /** The boxes of one slot in one epoch: one contiguous range of access
      counters from the start up to top, and nothing above. */
  ghost predicate Ranged(g: int -> Value, top: int) {
    var s := StartOf(g(1));
    && 1 <= s <= top && (g(1).At? ==> s > 1)
    && (forall a :: s <= a <= top ==> g(a).Ind?)
    && (forall a :: a > top ==> g(a) == Nothing)
  }

  /** What the search knows after the first read: top is between left and right,
      and no candidate between them has been skipped. */
  ghost predicate Searching(p: Probe, g: int -> Value, top: int, access: int) {
    && StartOf(g(1)) <= p.left <= top <= p.right <= access
    && p.left <= p.cur <= p.right
    && (p.right - p.left >= 2 ==> p.cur == (p.left + p.right) / 2 || p.cur == (p.left + p.right + 1) / 2)
    && (if p.lastId == Nothing then p.left == StartOf(g(1)) else p.lastId == g(p.left) && p.lastAcc == p.left)
  }

  /** A slot is settled at its largest existing access counter. */
  ghost predicate Settled(p: Probe, g: int -> Value, top: int) {
    p.lastAcc == top && p.lastId == g(top)
  }

  ghost predicate ProbeOk(p: Probe, g: int -> Value, top: int, access: int) {
    if p.found then Settled(p, g, top) else Searching(p, g, top, access)
  }

  /** Reads still needed. */
  function Remaining(p: Probe): nat {
    if p.found then 0
    else if p.right <= p.left then 1
    else if p.right - p.left == 1 then if p.cur == p.right then 2 else 3
    else CeilLog2(p.right - p.left) + 3
  }

  lemma FirstStepOk(g: int -> Value, top: int, access: int)
    requires Ranged(g, top) && top <= access
    ensures var p := FirstStep(Begin(access), g(1));
            ProbeOk(p, g, top, access) && !p.found && Remaining(p) + 1 <= CeilLog2(access) + 4
  {
    hide CeilLog2, Pow2;
    var p := FirstStep(Begin(access), g(1));
    assert p.left == StartOf(g(1));
    if p.right - p.left >= 2 { CeilLog2Monotone(p.right - p.left, access); }
  }

  lemma {:induction false} CeilLog2Monotone(a: nat, b: nat)
    requires 1 <= a <= b
    ensures CeilLog2(a) <= CeilLog2(b)
    decreases b
  {
    if a > 1 { CeilLog2Monotone((a + 1) / 2, (b + 1) / 2); }
  }

  /** Every later read keeps the search exact and uses up one of the reads left. */
  lemma NextStepOk(p: Probe, g: int -> Value, top: int, access: int)
    requires Ranged(g, top) && Searching(p, g, top, access) && !p.found
    ensures var q := NextStep(p, g(p.cur));
            ProbeOk(q, g, top, access) && Remaining(q) + 1 <= Remaining(p)
  {
    hide CeilLog2, Pow2;
    var q := NextStep(p, g(p.cur));
    assert g(p.cur) == Nothing <==> p.cur > top;
    if p.right - p.left >= 2 {
      HalvesWindow(p.right - p.left, q.right - q.left);
    }
  }

  lemma HalvesWindow(w: nat, v: int)
    requires w >= 2 && 1 <= v <= (w + 1) / 2
    ensures 1 <= CeilLog2(w) && CeilLog2(v) + 1 <= CeilLog2(w)
  {
    CeilLog2Monotone(v, (w + 1) / 2);
  }
}

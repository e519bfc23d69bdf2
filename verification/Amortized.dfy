/** The amortized index (SDa): level i is empty or stands for 2^i records; an
    update merges the full levels below the lowest empty one into it. The ten
    lowest levels are dictionaries kept by the client, the others are stored
    at the server under labels keyword-counter. */
module Amortized {
  import opened Powers
  import opened Collections
  import opened Records
  import opened Requests
  import opened RecordSets
  import opened AmortizedSchedule

  const LocalSize: nat := 10

  type Groups = map<string, seq<Record>>

  datatype Level = Local(groups: Groups) | Remote(store: RecordSet, exist: bool)

  /** ceil(log2 N) server levels, with at least the ten local ones. */
  function Depth(capacity: nat): nat
    requires capacity >= 1
  {
    if CeilLog2(capacity) < LocalSize then LocalSize else CeilLog2(capacity)
  }

  function GroupOf(g: Groups, w: string): seq<Record> {
    if w in g then g[w] else []
  }

  ghost predicate Grouped(g: Groups) {
    forall w, x :: w in g && x in g[w] ==> x.keyword == w
  }

  /** What a search for w finds in one level. */
  ghost function Group(l: Level, w: string): seq<Record> {
    match l
    case Local(g) => GroupOf(g, w)
    case Remote(s, _) => Probe(s.at, w, 0)
  }

  ghost predicate Stored(s: RecordSet) {
    exists recs :: Stores(0, s, recs)
  }

  ghost predicate LevelOk(l: Level) {
    match l
    case Local(g) => Grouped(g)
    case Remote(s, exist) => Stored(s) && (!exist ==> s.at == map[])
  }

  lemma GroupKeyword(l: Level, w: string)
    requires LevelOk(l)
    ensures forall x :: x in Group(l, w) ==> x.keyword == w
  {
    if l.Remote? {
      var recs :| Stores(0, l.store, recs);
      ProbeIsFilter(0, recs, w);
      FilterSelects(recs, w);
      forall x | x in Group(l, w) ensures x.keyword == w {
        assert multiset(Filter(recs, w))[x] > 0;
      }
    }
  }

  /** Everything the levels below n hold for w. */
  ghost function Total(levels: seq<Level>, n: nat, w: string): multiset<Record>
    requires n <= |levels|
  {
    if n == 0 then multiset{} else Total(levels, n - 1, w) + multiset(Group(levels[n - 1], w))
  }

  lemma TotalNone(levels: seq<Level>)
    ensures forall w :: Total(levels, 0, w) == multiset{}
  {
  }

  lemma TotalLevel(levels: seq<Level>, i: nat)
    requires i < |levels|
    ensures forall w :: Total(levels, i + 1, w) == Total(levels, i, w) + multiset(Group(levels[i], w))
  {
    hide Group;
  }

  // ----- merging into previousData -----

  /** previousData[w] = previousData[w] ++ more, creating the entry if absent. */
  function Extend(g: Groups, w: string, more: seq<Record>): (r: Groups)
    ensures GroupOf(r, w) == GroupOf(g, w) + more
    ensures forall v :: v != w ==> GroupOf(r, v) == GroupOf(g, v)
    ensures r.Keys == g.Keys + {w}
  {
    g[w := GroupOf(g, w) + more]
  }

  lemma ExtendGrouped(g: Groups, w: string, more: seq<Record>)
    requires Grouped(g) && forall x :: x in more ==> x.keyword == w
    ensures Grouped(Extend(g, w, more))
  {
  }

  /** m holds every record of the dictionary, each as often as it occurs. */
  ghost predicate Flattens(m: multiset<Record>, g: Groups) {
    forall x: Record :: m[x] == multiset(GroupOf(g, x.keyword))[x]
  }

  lemma ExtendFlattens(m: multiset<Record>, g: Groups, w: string, more: seq<Record>)
    requires Flattens(m, g) && forall x :: x in more ==> x.keyword == w
    ensures Flattens(m + multiset(more), Extend(g, w, more))
  {
    forall x: Record ensures (m + multiset(more))[x] == multiset(GroupOf(Extend(g, w, more), x.keyword))[x] {
      assert m[x] == multiset(GroupOf(g, x.keyword))[x];
      assert x.keyword != w ==> x !in more;
    }
  }

  /** One local level: every entry is appended to the merged dictionary. */
  method MergeLocal(g: Groups, level: Groups, ghost m: multiset<Record>) returns (r: Groups, ghost m': multiset<Record>)
    requires Grouped(g) && Grouped(level) && Flattens(m, g)
    ensures Grouped(r) && Flattens(m', r)
    ensures forall w :: GroupOf(r, w) == GroupOf(g, w) + GroupOf(level, w)
  {
    r, m' := g, m;
    var rest := level.Keys;
    while rest != {}
      invariant rest <= level.Keys
      invariant Grouped(r) && Flattens(m', r)
      invariant forall w :: w in rest ==> GroupOf(r, w) == GroupOf(g, w)
      invariant forall w :: w !in rest ==> GroupOf(r, w) == GroupOf(g, w) + GroupOf(level, w)
      decreases rest
    {
      var k := Pick(rest);
      ExtendGrouped(r, k, level[k]);
      ExtendFlattens(m', r, k, level[k]);
      m' := m' + multiset(level[k]);
      r := Extend(r, k, level[k]);
      rest := rest - {k};
    }
  }

  lemma FilterLast(s: seq<Record>, j: nat, w: string)
    requires j < |s|
    ensures Filter(s[..j + 1], w) == Filter(s[..j], w) + if s[j].keyword == w then [s[j]] else []
  {
    assert s[..j + 1][..j] == s[..j];
  }

  lemma FilterPermutes(a: seq<Record>, b: seq<Record>, w: string)
    requires multiset(a) == multiset(b)
    ensures multiset(Filter(a, w)) == multiset(Filter(b, w))
  {
    FilterSelects(a, w);
    FilterSelects(b, w);
  }

  lemma ListingGroups(s: RecordSet, w: string)
    requires Stored(s)
    ensures s.WellFormed()
    ensures multiset(Filter(s.Listing(), w)) == multiset(Probe(s.at, w, 0))
  {
    var recs :| Stores(0, s, recs);
    ListingPermutes(0, s, recs);
    ProbeIsFilter(0, recs, w);
    FilterPermutes(s.Listing(), recs, w);
  }

  /** r is g extended by the first j records of s, group by group. */
  ghost predicate Extended(r: Groups, g: Groups, s: seq<Record>, j: nat)
    requires j <= |s|
  {
    forall w :: GroupOf(r, w) == GroupOf(g, w) + Filter(s[..j], w)
  }

  lemma ExtendedStart(g: Groups, s: seq<Record>)
    ensures Extended(g, g, s, 0)
  {
  }

  lemma ExtendedStep(r: Groups, g: Groups, s: seq<Record>, j: nat)
    requires j < |s| && Extended(r, g, s, j)
    ensures Extended(Extend(r, s[j].keyword, [s[j]]), g, s, j + 1)
  {
    hide Filter;
    var x := s[j];
    forall w ensures GroupOf(Extend(r, x.keyword, [x]), w) == GroupOf(g, w) + Filter(s[..j + 1], w) {
      FilterLast(s, j, w);
    }
  }

  lemma ExtendedAll(r: Groups, g: Groups, s: RecordSet)
    requires Stored(s) && s.WellFormed() && Extended(r, g, s.Listing(), |s.Listing()|)
    ensures forall w :: multiset(GroupOf(r, w)) == multiset(GroupOf(g, w)) + multiset(Probe(s.at, w, 0))
  {
    hide Filter, Probe, RecordSet.WellFormed, Stored;
    var all := s.Listing();
    assert all[..|all|] == all;
    forall w ensures multiset(GroupOf(r, w)) == multiset(GroupOf(g, w)) + multiset(Probe(s.at, w, 0)) {
      ListingGroups(s, w);
      assert GroupOf(r, w) == GroupOf(g, w) + Filter(all, w);
    }
  }

  /** One remote level: its ciphertexts arrive in the server's enumeration order. */
  method MergeRemote(g: Groups, s: RecordSet, ghost m: multiset<Record>) returns (r: Groups, ghost m': multiset<Record>)
    requires Grouped(g) && Stored(s) && Flattens(m, g)
    ensures Grouped(r) && Flattens(m', r)
    ensures forall w :: multiset(GroupOf(r, w)) == multiset(GroupOf(g, w)) + multiset(Probe(s.at, w, 0))
  {
    hide Filter, Probe, Extended, Flattens, Grouped, RecordSet.WellFormed, Stored, GroupOf, Extend;
    r, m' := g, m;
    ListingGroups(s, "");
    ghost var all := s.Listing();
    ExtendedStart(g, all);
    for j := 0 to |s.order|
      invariant Grouped(r) && Flattens(m', r)
      invariant Extended(r, g, all, j)
    {
      var x := s.ElementAt(j);
      ExtendGrouped(r, x.keyword, [x]);
      ExtendFlattens(m', r, x.keyword, [x]);
      ExtendedStep(r, g, all, j);
      m' := m' + multiset([x]);
      r := Extend(r, x.keyword, [x]);
    }
    ExtendedAll(r, g, s);
  }

  method MergeLevel(g: Groups, l: Level, ghost m: multiset<Record>) returns (r: Groups, ghost m': multiset<Record>)
    requires Grouped(g) && Flattens(m, g) && LevelOk(l)
    ensures Grouped(r) && Flattens(m', r)
    ensures forall w :: multiset(GroupOf(r, w)) == multiset(GroupOf(g, w)) + multiset(Group(l, w))
  {
    hide Probe, Stored, GroupOf, Grouped, Flattens;
    match l {
      case Local(groups) => r, m' := MergeLocal(g, groups, m);
      case Remote(store, _) => r, m' := MergeRemote(g, store, m);
    }
  }

  lemma NoGroups()
    ensures Grouped(map[]) && Flattens(multiset{}, map[])
    ensures forall w :: GroupOf(map[], w) == []
  {
  }

  /** clear(), and destry() at the server. */
  function Cleared(l: Level): Level {
    if l.Local? then Local(map[]) else Remote(Empty, false)
  }

  // ----- writing a remote level -----

  /** Label one keyword's records 0, 1, ... . */
  method LabelGroup(s: RecordSet, w: string, group: seq<Record>, ghost recs: seq<Record>)
    returns (r: RecordSet, ghost recs': seq<Record>)
    requires Stores(0, s, recs) && Filter(recs, w) == []
    requires forall x :: x in group ==> x.keyword == w
    ensures Stores(0, r, recs')
    ensures Filter(recs', w) == group
    ensures forall v :: v != w ==> Filter(recs', v) == Filter(recs, v)
  {
    hide RecordSet.WellFormed, LabelAll;
    r, recs' := s, recs;
    for i := 0 to |group|
      invariant Stores(0, r, recs')
      invariant Filter(recs', w) == group[..i]
      invariant forall v :: v != w ==> Filter(recs', v) == Filter(recs, v)
    {
      var x := group[i];
      assert x in group;
      ghost var before, next := r, recs' + [x];
      r := Put(r, Label(w, i), x);
      StoresPut(0, before, recs', x, r);
      assert next[..|recs'|] == recs';
      recs' := next;
      assert group[..i + 1] == group[..i] + [x];
    }
    assert group[..|group|] == group;
  }

  /** The cipher map of one level: every keyword's records, labelled. */
  method Encrypt(g: Groups) returns (r: RecordSet)
    requires Grouped(g)
    ensures Stored(r)
    ensures forall w :: Probe(r.at, w, 0) == GroupOf(g, w)
  {
    r := Empty;
    ghost var recs: seq<Record> := [];
    var rest := g.Keys;
    while rest != {}
      invariant rest <= g.Keys
      invariant Stores(0, r, recs)
      invariant forall w :: Filter(recs, w) == if w in rest then [] else GroupOf(g, w)
      decreases rest
    {
      var k := Pick(rest);
      r, recs := LabelGroup(r, k, g[k], recs);
      rest := rest - {k};
    }
    forall w ensures Probe(r.at, w, 0) == GroupOf(g, w) {
      ProbeIsFilter(0, recs, w);
    }
  }

  /** insert(range) into the server's dictionary: entries present win. */
  method StoreCiphers(s: RecordSet, ciphers: RecordSet) returns (r: RecordSet)
    requires s.WellFormed() && ciphers.WellFormed()
    ensures r.WellFormed() && r.at == ciphers.at + s.at
  {
    hide RecordSet.WellFormed;
    r := s;
    var rest := ciphers.at.Keys;
    while rest != {}
      invariant r.WellFormed() && rest <= ciphers.at.Keys
      invariant r.at == (map k | k in ciphers.at && k !in rest :: ciphers.at[k]) + s.at
      decreases rest
    {
      var k := Pick(rest);
      r := PutIfAbsent(r, k, ciphers.at[k]);
      rest := rest - {k};
    }
  }

  /** insert(range) into a local level: a key already present is skipped,
      even when its vector is empty. */
  function InsertAbsent(level: Groups, g: Groups): Groups {
    g + level
  }

  // ----- the invariant -----

  /** Nothing is repeated or invented, and nothing of an unsearched keyword is lost. */
  ghost predicate Agrees(l: Level, w: string, slice: seq<Record>, searched: set<string>) {
    multiset(Group(l, w)) <= multiset(slice)
    && (w !in searched ==> Selects(multiset(Group(l, w)), multiset(slice), w))
  }

  /** A level whose bit is clear: at most empty entries left behind by searches. */
  ghost predicate Idle(l: Level, searched: set<string>) {
    match l
    case Local(g) => forall w :: w in g ==> g[w] == [] && w in searched
    case Remote(s, exist) => s.at == map[] && !exist
  }

  ghost predicate LevelInv(l: Level, i: nat, h: seq<Record>, searched: set<string>) {
    && LevelOk(l) && (l.Local? <==> i < LocalSize)
    && (forall w :: Agrees(l, w, Slice(h, i), searched))
    && (Bit(|h|, i) == 0 ==> Idle(l, searched))
  }

  ghost predicate Inv(levels: seq<Level>, h: seq<Record>, searched: set<string>) {
    && LocalSize <= |levels| && |h| < Pow2(|levels|)
    && forall i :: 0 <= i < |levels| ==> LevelInv(levels[i], i, h, searched)
  }

  /** The levels of a set bit hold 2^i records for unsearched keywords, those of
      a clear bit none, and together exactly the history. */
  lemma {:induction false} TotalSelects(levels: seq<Level>, n: nat, h: seq<Record>, searched: set<string>, w: string)
    requires Inv(levels, h, searched) && w !in searched && n <= |levels|
    ensures Selects(Total(levels, n, w), Slices(h, n), w)
  {
    hide Slice, Group, LevelOk, Idle, Bit;
    if n > 0 {
      TotalSelects(levels, n - 1, h, searched, w);
      assert LevelInv(levels[n - 1], n - 1, h, searched);
      assert Agrees(levels[n - 1], w, Slice(h, n - 1), searched);
    }
  }

  lemma {:induction false} TotalBounded(levels: seq<Level>, n: nat, h: seq<Record>, searched: set<string>, w: string)
    requires Inv(levels, h, searched) && n <= |levels|
    ensures Total(levels, n, w) <= Slices(h, n)
  {
    hide Slice, Group, LevelOk, Idle, Bit;
    if n > 0 {
      TotalBounded(levels, n - 1, h, searched, w);
      assert LevelInv(levels[n - 1], n - 1, h, searched);
      assert Agrees(levels[n - 1], w, Slice(h, n - 1), searched);
    }
  }

  /** No record of an unsearched keyword is lost or repeated. */
  lemma NothingLost(levels: seq<Level>, h: seq<Record>, searched: set<string>, w: string)
    requires Inv(levels, h, searched) && w !in searched
    ensures Selects(Total(levels, |levels|, w), multiset(h), w)
  {
    TotalSelects(levels, |levels|, h, searched, w);
    SlicesAreHistory(h, |levels|);
  }

  /** m is all the records of a level, each under its own keyword. */
  ghost predicate RecordsOf(l: Level, m: multiset<Record>) {
    forall x: Record :: m[x] == multiset(Group(l, x.keyword))[x]
  }

  /** Before any search, level i holds exactly its slice of the history: 2^i records
      when bit i of their number is set, and none otherwise. */
  lemma LevelHolds(levels: seq<Level>, h: seq<Record>, i: nat, m: multiset<Record>)
    requires Inv(levels, h, {}) && i < |levels|
    ensures RecordsOf(levels[i], m) <==> m == multiset(Slice(h, i))
    ensures RecordsOf(levels[i], m) ==> |m| == if Bit(|h|, i) == 1 then Pow2(i) else 0
  {
    hide Slice, Group, Bit, LevelOk, Idle;
    var slice := multiset(Slice(h, i));
    assert LevelInv(levels[i], i, h, {});
    forall x: Record ensures slice[x] == multiset(Group(levels[i], x.keyword))[x] {
      assert Agrees(levels[i], x.keyword, Slice(h, i), {});
    }
    if RecordsOf(levels[i], m) {
      forall x: Record ensures m[x] == slice[x] {
      }
      assert m == slice;
    }
    SliceSize(h, i);
  }

  // ----- one update -----

  ghost function Own(x: Record, w: string): multiset<Record> {
    if x.keyword == w then multiset{x} else multiset{}
  }

  /** The merged records of w are dropped when level r already has an entry for w. */
  ghost predicate Shadowed(l: Level, w: string) {
    l.Local? && w in l.groups
  }

  /** The effect of one update on the levels, keyword by keyword. */
  ghost predicate Updated(pre: seq<Level>, post: seq<Level>, r: nat, x: Record)
    requires r < |pre|
  {
    && |post| == |pre|
    && (forall i :: 0 <= i < r ==> post[i] == Cleared(pre[i]))
    && (forall i :: r < i < |pre| ==> post[i] == pre[i])
    && LevelOk(post[r]) && (post[r].Local? <==> pre[r].Local?)
    && (forall w :: Shadowed(pre[r], w) ==> Shadowed(post[r], w))
    && forall w :: Merged(pre, post[r], r, x, w)
  }

  ghost predicate Merged(pre: seq<Level>, l: Level, r: nat, x: Record, w: string)
    requires r < |pre|
  {
    multiset(Group(l, w)) == if Shadowed(pre[r], w) then multiset(Group(pre[r], w)) else Total(pre, r, w) + Own(x, w)
  }

  lemma EmptyLevel(l: Level, w: string, s: set<string>)
    requires l == Local(map[]) || l == Remote(Empty, false)
    ensures LevelOk(l) && Group(l, w) == [] && Idle(l, s)
  {
    assert Stores(0, Empty, []);
  }

  lemma IdleGroup(l: Level, w: string, s: set<string>)
    requires Idle(l, s)
    ensures Group(l, w) == [] && (Shadowed(l, w) ==> w in s)
  {
  }

  lemma UpdateLow(h: seq<Record>, x: Record, i: nat, l: Level, s: set<string>)
    requires i < LowestZero(|h|)
    requires l == if i < LocalSize then Local(map[]) else Remote(Empty, false)
    ensures LevelInv(l, i, h + [x], s)
  {
    hide Slice;
    SliceStep(h, x, i);
    IncrementBits(|h|, i);
    forall w ensures Agrees(l, w, Slice(h + [x], i), s) {
      EmptyLevel(l, w, s);
    }
    EmptyLevel(l, "", s);
  }

  lemma UpdateHigh(h: seq<Record>, x: Record, i: nat, l: Level, s: set<string>)
    requires i > LowestZero(|h|)
    requires LevelInv(l, i, h, s)
    ensures LevelInv(l, i, h + [x], s)
  {
    hide Slice, LowestZero, Idle, Agrees, LevelOk;
    SliceStep(h, x, i);
    IncrementBits(|h|, i);
    assert |h + [x]| == |h| + 1;
  }

  lemma IdleTarget(levels: seq<Level>, h: seq<Record>, s: set<string>)
    requires Inv(levels, h, s) && LowestZero(|h|) < |levels|
    ensures LevelOk(levels[LowestZero(|h|)]) && Idle(levels[LowestZero(|h|)], s)
  {
    hide Slice, Agrees, Idle, LevelOk;
    var r := LowestZero(|h|);
    IncrementBits(|h|, r);
    assert LevelInv(levels[r], r, h, s);
  }

  lemma UpdateMerged(pre: seq<Level>, l: Level, h: seq<Record>, x: Record, s: set<string>, w: string)
    requires Inv(pre, h, s)
    requires LowestZero(|h|) < |pre| && Merged(pre, l, LowestZero(|h|), x, w)
    ensures Agrees(l, w, Slice(h + [x], LowestZero(|h|)), s)
  {
    hide Slice, LowestZero, Group, Slices, Total, Inv, Idle, LevelOk, Selects;
    var r := LowestZero(|h|);
    SliceStep(h, x, r);
    IdleTarget(pre, h, s);
    IdleGroup(pre[r], w, s);
    TotalBounded(pre, r, h, s, w);
    OwnBounded(x, w);
    if w !in s {
      TotalSelects(pre, r, h, s, w);
      OwnSelects(Total(pre, r, w), Slices(h, r), x, w);
    }
  }

  lemma OwnBounded(x: Record, w: string)
    ensures Own(x, w) <= multiset{x}
  {
  }

  lemma OwnSelects(f: multiset<Record>, m: multiset<Record>, x: Record, w: string)
    requires Selects(f, m, w)
    ensures Selects(f + Own(x, w), m + multiset{x}, w)
  {
  }

  lemma UpdateTarget(pre: seq<Level>, l: Level, h: seq<Record>, x: Record, s: set<string>)
    requires Inv(pre, h, s) && LowestZero(|h|) < |pre|
    requires LevelOk(l) && (l.Local? <==> LowestZero(|h|) < LocalSize)
    requires forall w :: Merged(pre, l, LowestZero(|h|), x, w)
    ensures LevelInv(l, LowestZero(|h|), h + [x], s)
  {
    hide Slice, LowestZero, Agrees, Merged, Idle, LevelOk, Inv;
    var r := LowestZero(|h|);
    forall w ensures Agrees(l, w, Slice(h + [x], r), s) {
      UpdateMerged(pre, l, h, x, s, w);
    }
    IncrementOdd(|h|);
    assert |h + [x]| == |h| + 1;
    assert Bit(|h + [x]|, r) == 1;
  }

  lemma LevelKind(levels: seq<Level>, h: seq<Record>, s: set<string>, i: nat)
    requires Inv(levels, h, s) && i < |levels|
    ensures LevelInv(levels[i], i, h, s) && (levels[i].Local? <==> i < LocalSize)
  {
    hide Slice, Agrees, Idle, LevelOk;
    assert LevelInv(levels[i], i, h, s);
  }

  lemma UpdateKeeps(pre: seq<Level>, post: seq<Level>, h: seq<Record>, x: Record, s: set<string>)
    requires Inv(pre, h, s) && |h| + 1 < Pow2(|pre|)
    requires LowestZero(|h|) < |pre| && Updated(pre, post, LowestZero(|h|), x)
    ensures Inv(post, h + [x], s)
  {
    hide LowestZero, Merged, LevelOk, LevelInv;
    var r := LowestZero(|h|);
    forall i | 0 <= i < |post| ensures LevelInv(post[i], i, h + [x], s) {
      LevelKind(pre, h, s, i);
      if i < r {
        UpdateLow(h, x, i, post[i], s);
      } else if i > r {
        UpdateHigh(h, x, i, post[i], s);
      } else {
        UpdateTarget(pre, post[r], h, x, s);
      }
    }
    assert |h + [x]| == |h| + 1;
  }

  // ----- exactly when an update loses records -----

  lemma {:induction false} TotalAbove(pre: seq<Level>, post: seq<Level>, r: nat, x: Record, n: nat, w: string)
    requires r < n <= |pre| && Updated(pre, post, r, x)
    ensures Total(post, n, w) + Total(pre, r, w) + multiset(Group(pre[r], w))
         == Total(pre, n, w) + multiset(Group(post[r], w))
  {
    hide Group, Merged, LevelOk;
    if n == r + 1 {
      TotalCleared(pre, post, r, x, r, w);
    } else {
      TotalAbove(pre, post, r, x, n - 1, w);
      SumShift(Total(post, n - 1, w), Total(pre, r, w), multiset(Group(pre[r], w)),
               Total(pre, n - 1, w), multiset(Group(post[r], w)), multiset(Group(pre[n - 1], w)));
    }
  }

  lemma SumShift(a: multiset<Record>, b: multiset<Record>, c: multiset<Record>, d: multiset<Record>,
                 e: multiset<Record>, f: multiset<Record>)
    requires a + b + c == d + e
    ensures (a + f) + b + c == (d + f) + e
  {
    assert (a + f) + b + c == (a + b + c) + f;
    assert (d + f) + e == (d + e) + f;
  }

  lemma {:induction false} TotalCleared(pre: seq<Level>, post: seq<Level>, r: nat, x: Record, n: nat, w: string)
    requires r < |pre| && n <= r && Updated(pre, post, r, x)
    ensures Total(post, n, w) == multiset{}
  {
    hide Probe;
    if n > 0 {
      TotalCleared(pre, post, r, x, n - 1, w);
      EmptyLevel(post[n - 1], w, {});
    }
  }

  /** An update keeps all records of w, the new one included, if and only if
      the target level has no (empty) entry for w or nothing of w is merged. */
  lemma LostExactly(pre: seq<Level>, post: seq<Level>, h: seq<Record>, x: Record, s: set<string>, w: string)
    requires Inv(pre, h, s)
    requires LowestZero(|h|) < |pre| && Updated(pre, post, LowestZero(|h|), x)
    ensures Total(post, |post|, w) == Total(pre, |pre|, w) + Own(x, w)
      <==> !(Shadowed(pre[LowestZero(|h|)], w) && (x.keyword == w || Total(pre, LowestZero(|h|), w) != multiset{}))
  {
    hide LowestZero, Group, Total, Inv, LevelOk, Idle;
    var r := LowestZero(|h|);
    TotalAbove(pre, post, r, x, |pre|, w);
    IdleTarget(pre, h, s);
    IdleGroup(pre[r], w, s);
    assert Merged(pre, post[r], r, x, w);
    BalanceOfMerge(Total(post, |post|, w), Total(pre, |pre|, w), Total(pre, r, w), Own(x, w), Shadowed(pre[r], w));
  }

  lemma BalanceOfMerge(a: multiset<Record>, b: multiset<Record>, p: multiset<Record>, q: multiset<Record>,
                       shadowed: bool)
    requires a + p == b + if shadowed then multiset{} else p + q
    ensures a == b + q <==> !(shadowed && (q != multiset{} || p != multiset{}))
  {
    if shadowed {
      assert |a + p| == |a| + |p| && |b + q| == |b| + |q|;
      assert a == b + q ==> |p| == 0 && |q| == 0;
    } else {
      assert a + p == (b + q) + p;
      SumCancels(a, p, b + q);
    }
  }

  lemma SumCancels(a: multiset<Record>, p: multiset<Record>, b: multiset<Record>)
    requires a + p == b + p
    ensures a == b
  {
    assert a == (a + p) - p;
    assert b == (b + p) - p;
  }

  // ----- capacity -----

  lemma {:induction false} LowestZeroOfOnes(t: nat)
    ensures LowestZero(Pow2(t) - 1) == t
  {
    if t > 0 {
      LowestZeroOfOnes(t - 1);
      assert Pow2(t) == 2 * Pow2(t - 1);
      assert (Pow2(t) - 1) / 2 == Pow2(t - 1) - 1;
    }
  }

  lemma DepthCovers(capacity: nat)
    requires capacity >= 1
    ensures capacity <= Pow2(Depth(capacity))
  {
    Pow2Monotone(CeilLog2(capacity), Depth(capacity));
  }

  /** Among the first N updates there is one for a level past the last if and only if
      N is a power of two of at least 1024. */
  lemma CapacityExact(capacity: nat)
    requires capacity >= 1
    ensures
      (exists u: nat :: u < capacity && LowestZero(u) >= if CeilLog2(capacity) < 10 then 10 else CeilLog2(capacity))
      <==> exists k: nat :: k >= 10 && capacity == Pow2(k)
  {
    hide LowestZero, Pow2, CeilLog2;
    var t := Depth(capacity);
    DepthCovers(capacity);
    if capacity == Pow2(t) {
      LowestZeroOfOnes(t);
      var last: nat := capacity - 1;
      assert LowestZero(last) == t;
    } else {
      forall u: nat | u < capacity ensures LowestZero(u) < t { LowestZeroBound(u, t); }
      forall k: nat | k >= 10 ensures capacity != Pow2(k) { NotBelowDepth(capacity, k); }
    }
  }

  lemma NotBelowDepth(capacity: nat, k: nat)
    requires capacity >= 1 && k >= 10 && capacity < Pow2(Depth(capacity))
    ensures capacity != Pow2(k)
  {
    var t := Depth(capacity);
    if k < t { Pow2Monotone(k, t - 1); } else { Pow2Monotone(t, k); }
  }

  // ----- one search -----

  /** data[i][keyword] creates an empty entry where there was none. */
  function Touched(l: Level, w: string): Level {
    if l.Local? then Local(l.groups[w := GroupOf(l.groups, w)]) else l
  }

  method SearchLevel(l: Level, w: string) returns (found: seq<Record>)
    requires LevelOk(l)
    ensures found == Group(l, w)
    ensures forall k :: 0 <= k < |found| ==> found[k].keyword == w
  {
    hide Probe, Stored;
    GroupKeyword(l, w);
    match l {
      case Local(groups) => found := GroupOf(groups, w);
      case Remote(store, exist) =>
        if exist {
          found := ProbeAll(store, w, 0);
        } else {
          EmptyProbe(store, w);
          found := [];
        }
    }
  }

  /** The levels a search leaves behind. */
  ghost predicate Searched(pre: seq<Level>, post: seq<Level>, w: string) {
    |post| == |pre| && forall i :: 0 <= i < |pre| ==> post[i] == Touched(pre[i], w)
  }

  lemma TouchKeeps(l: Level, i: nat, h: seq<Record>, s: set<string>, w: string)
    requires LevelInv(l, i, h, s)
    ensures LevelInv(Touched(l, w), i, h, s + {w})
    ensures forall v :: Group(Touched(l, w), v) == Group(l, v)
  {
    var l' := Touched(l, w);
    hide Slice, Probe;
    forall v ensures Agrees(l', v, Slice(h, i), s + {w}) {
      assert Group(l', v) == Group(l, v);
      assert Agrees(l, v, Slice(h, i), s);
    }
  }

  /** A search changes what no level answers, only which keywords have entries. */
  lemma SearchKeeps(pre: seq<Level>, post: seq<Level>, h: seq<Record>, s: set<string>, w: string)
    requires Inv(pre, h, s) && Searched(pre, post, w)
    ensures Inv(post, h, s + {w})
  {
    hide LevelInv, Touched;
    forall i | 0 <= i < |post| ensures LevelInv(post[i], i, h, s + {w}) {
      TouchKeeps(pre[i], i, h, s, w);
    }
  }

  /** The amortized index. history and searched are the run so far. */
  class Index {
    var levels: seq<Level>
    var updateCounter: nat
    ghost var history: seq<Record>
    ghost var searched: set<string>
    ghost var moves: nat

    ghost predicate Valid()
      reads this
    {
      updateCounter == |history| && Inv(levels, history, searched)
    }

    constructor (capacity: nat)
      requires capacity >= 1
      ensures Valid() && |levels| == if CeilLog2(capacity) < 10 then 10 else CeilLog2(capacity)
      ensures history == [] && searched == {} && moves == 0
    {
      var n := Depth(capacity);
      levels := seq(n, i requires 0 <= i < n => if i < LocalSize then Local(map[]) else Remote(Empty, false));
      updateCounter, history, searched, moves := 0, [], {}, 0;
      new;
      Pow2Monotone(0, n);
      forall i | 0 <= i < n ensures LevelInv(levels[i], i, [], {}) {
        EmptyLevel(levels[i], "", {});
        forall w ensures Agrees(levels[i], w, Slice([], i), {}) { EmptyLevel(levels[i], w, {}); }
      }
    }

    /** Collect and clear the levels below r. */
    method Collect(r: nat) returns (g: Groups, ghost m: multiset<Record>)
      requires r <= |levels| && forall i :: 0 <= i < |levels| ==> LevelOk(levels[i])
      modifies this`levels
      ensures Grouped(g) && Flattens(m, g)
      ensures |levels| == |old(levels)|
      ensures forall i :: 0 <= i < r ==> levels[i] == Cleared(old(levels)[i])
      ensures forall i :: r <= i < |levels| ==> levels[i] == old(levels)[i]
      ensures forall w :: multiset(GroupOf(g, w)) == Total(old(levels), r, w)
    {
      hide Group, LevelOk, Cleared, Grouped, Flattens, GroupOf, Total;
      g, m := map[], multiset{};
      NoGroups();
      ghost var pre := levels;
      TotalNone(pre);
      for i := 0 to r
        invariant |levels| == |pre|
        invariant Grouped(g) && Flattens(m, g)
        invariant forall k :: 0 <= k < i ==> levels[k] == Cleared(pre[k])
        invariant forall k :: i <= k < |levels| ==> levels[k] == pre[k]
        invariant forall w :: multiset(GroupOf(g, w)) == Total(pre, i, w)
      {
        TotalLevel(pre, i);
        g, m := MergeLevel(g, levels[i], m);
        levels := levels[i := Cleared(levels[i])];
      }
    }

    /** written is what is merged for the target level; moves counts it. */
    method Update(op: Op, keyword: string, id: int) returns (ghost written: multiset<Record>)
      requires Valid() && |history| + 1 < Pow2(|levels|)
      modifies this
      ensures Valid()
      ensures |levels| == |old(levels)| && searched == old(searched)
      ensures history == old(history) + [Record(keyword, id, op)]
      ensures LowestZero(|old(history)|) < |levels|
      ensures Updated(old(levels), levels, LowestZero(|old(history)|), Record(keyword, id, op))
      ensures forall y: Record ::
                written[y] == (Total(old(levels), LowestZero(|old(history)|), y.keyword)
                               + Own(Record(keyword, id, op), y.keyword))[y]
      ensures moves == old(moves) + |written| && |written| <= Pow2(LowestZero(|old(history)|))
    {
      hide LevelInv, LowestZero, Inv, Total, Group, Flattens, Grouped, LevelOk, Merged, GroupOf, Pow2, Own, Shadowed,
           Cleared;
      ghost var pre, h := levels, history;
      var x := Record(keyword, id, op);
      var r := LowestZero(updateCounter);
      WithinDepth(pre, h, searched);
      var g, m := Collect(r);
      updateCounter := updateCounter + 1;
      history := history + [x];
      ExtendGrouped(g, keyword, [x]);
      ExtendFlattens(m, g, keyword, [x]);
      ExtendOwn(g, x);
      g := Extend(g, keyword, [x]);
      m := m + multiset([x]);
      written := m;
      moves := moves + |m|;
      WrittenIs(pre, r, x, g, m);
      MovedBound(pre, h, x, searched, g, m);
      var target := WriteLevel(pre, h, searched, levels[r], g, x);
      levels := levels[r := target];
      UpdateKeeps(pre, levels, h, x, searched);
    }

    /** The ids with more insertions than deletions, in ascending order: over
        what the levels hold in any case, and over the whole history when the
        keyword was not searched before. */
    method Search(keyword: string) returns (r: seq<int>)
      requires Valid()
      modifies this
      ensures Valid()
      ensures history == old(history) && searched == old(searched) + {keyword} && moves == old(moves)
      ensures |levels| == |old(levels)| && Searched(old(levels), levels, keyword)
      ensures IsAnswer(Total(old(levels), |old(levels)|, keyword), keyword, r)
      ensures keyword !in old(searched) ==> IsAnswer(multiset(history), keyword, r)
    {
      hide Group, LevelInv, LevelOk, Selects, IsAnswer, Touched;
      ghost var pre, s := levels, searched;
      LevelsOk(pre, history, s);
      var found: seq<Record> := [];
      for i := 0 to |levels|
        invariant |levels| == |pre| && searched == s && history == old(history)
        invariant updateCounter == old(updateCounter) && moves == old(moves)
        invariant forall k :: 0 <= k < i ==> levels[k] == Touched(pre[k], keyword)
        invariant forall k :: i <= k < |levels| ==> levels[k] == pre[k]
        invariant multiset(found) == Total(pre, i, keyword)
        invariant forall k :: 0 <= k < |found| ==> found[k].keyword == keyword
      {
        var more := SearchLevel(levels[i], keyword);
        levels := levels[i := Touched(levels[i], keyword)];
        found := found + more;
      }
      searched := searched + {keyword};
      SearchKeeps(pre, levels, history, s, keyword);
      r := NetAnswer(found, keyword);
      if keyword !in s {
        NothingLost(pre, history, s, keyword);
        SelectsSameAnswer(multiset(found), multiset(history), keyword, r);
      }
    }
  }

  /** Write the merged dictionary into its level, which is idle. */
  method WriteLevel(ghost pre: seq<Level>, ghost h: seq<Record>, ghost s: set<string>, l: Level, g: Groups,
                    ghost x: Record)
    returns (l': Level)
    requires Inv(pre, h, s) && LowestZero(|h|) < |pre| && l == pre[LowestZero(|h|)] && Grouped(g)
    requires forall w :: multiset(GroupOf(g, w)) == Total(pre, LowestZero(|h|), w) + Own(x, w)
    ensures LevelOk(l') && (l'.Local? <==> l.Local?) && forall w :: Shadowed(l, w) ==> Shadowed(l', w)
    ensures forall w :: Merged(pre, l', LowestZero(|h|), x, w)
  {
    hide LowestZero, Inv, Total, Group, Grouped, Merged, Probe, Stored, GroupOf, RecordSet.WellFormed;
    IdleTarget(pre, h, s);
    match l {
      case Local(groups) =>
        l' := Local(InsertAbsent(groups, g));
        MergedLocal(pre, groups, g, LowestZero(|h|), x);
      case Remote(store, _) =>
        var ciphers := Encrypt(g);
        StoredWellFormed(store);
        StoredWellFormed(ciphers);
        var stored := StoreCiphers(store, ciphers);
        l' := Remote(stored, true);
        MergedRemote(pre, store, ciphers, stored, g, LowestZero(|h|), x);
    }
  }

  lemma StoredWellFormed(s: RecordSet)
    requires Stored(s)
    ensures s.WellFormed()
  {
  }

  lemma ExtendOwn(g: Groups, x: Record)
    ensures forall w :: multiset(GroupOf(Extend(g, x.keyword, [x]), w)) == multiset(GroupOf(g, w)) + Own(x, w)
  {
    forall w ensures multiset(GroupOf(Extend(g, x.keyword, [x]), w)) == multiset(GroupOf(g, w)) + Own(x, w) {
      var e := GroupOf(Extend(g, x.keyword, [x]), w);
      assert w == x.keyword ==> e == GroupOf(g, w) + [x];
    }
  }

  lemma WithinDepth(levels: seq<Level>, h: seq<Record>, s: set<string>)
    requires Inv(levels, h, s) && |h| + 1 < Pow2(|levels|)
    ensures LowestZero(|h|) < |levels|
    ensures forall i :: 0 <= i < |levels| ==> LevelOk(levels[i])
  {
    LowestZeroBound(|h|, |levels|);
    LevelsOk(levels, h, s);
  }

  lemma EmptyProbe(s: RecordSet, w: string)
    requires s.at == map[]
    ensures Probe(s.at, w, 0) == []
  {
  }

  lemma LevelsOk(levels: seq<Level>, h: seq<Record>, s: set<string>)
    requires Inv(levels, h, s)
    ensures forall i :: 0 <= i < |levels| ==> LevelOk(levels[i])
  {
    forall i | 0 <= i < |levels| ensures LevelOk(levels[i]) { assert LevelInv(levels[i], i, h, s); }
  }

  lemma MergedLocal(pre: seq<Level>, groups: Groups, g: Groups, r: nat, x: Record)
    requires r < |pre| && pre[r] == Local(groups) && Grouped(groups) && Grouped(g)
    requires forall w :: multiset(GroupOf(g, w)) == Total(pre, r, w) + Own(x, w)
    ensures LevelOk(Local(InsertAbsent(groups, g)))
    ensures forall w :: Merged(pre, Local(InsertAbsent(groups, g)), r, x, w)
  {
    hide Probe;
  }

  lemma MergedRemote(pre: seq<Level>, store: RecordSet, ciphers: RecordSet, stored: RecordSet, g: Groups, r: nat,
                     x: Record)
    requires r < |pre| && pre[r].Remote? && store.at == map[]
    requires Stored(ciphers) && stored.WellFormed() && stored.at == ciphers.at + store.at
    requires forall w :: Probe(ciphers.at, w, 0) == GroupOf(g, w)
    requires forall w :: multiset(GroupOf(g, w)) == Total(pre, r, w) + Own(x, w)
    ensures LevelOk(Remote(stored, true))
    ensures forall w :: Merged(pre, Remote(stored, true), r, x, w)
  {
    hide Probe;
    assert stored.at == ciphers.at;
    var recs :| Stores(0, ciphers, recs);
    assert Stores(0, stored, recs);
  }

  lemma WrittenIs(pre: seq<Level>, r: nat, x: Record, g: Groups, m: multiset<Record>)
    requires r <= |pre| && Flattens(m, g)
    requires forall w :: multiset(GroupOf(g, w)) == Total(pre, r, w) + Own(x, w)
    ensures forall y: Record :: m[y] == (Total(pre, r, y.keyword) + Own(x, y.keyword))[y]
  {
    forall y: Record ensures m[y] == (Total(pre, r, y.keyword) + Own(x, y.keyword))[y] {
      assert m[y] == multiset(GroupOf(g, y.keyword))[y];
    }
  }

  /** What an update writes is part of the new slice, so at most 2^r records. */
  lemma MovedBound(pre: seq<Level>, h: seq<Record>, x: Record, s: set<string>, g: Groups, m: multiset<Record>)
    requires Inv(pre, h, s) && LowestZero(|h|) < |pre| && Flattens(m, g)
    requires forall w :: multiset(GroupOf(g, w)) == Total(pre, LowestZero(|h|), w) + Own(x, w)
    ensures |m| <= Pow2(LowestZero(|h|))
  {
    hide Slice, Slices, LowestZero, Total;
    var r := LowestZero(|h|);
    var slice := Slice(h + [x], r);
    SliceStep(h, x, r);
    SliceSize(h + [x], r);
    IncrementOdd(|h|);
    assert |h + [x]| == |h| + 1;
    forall y: Record ensures m[y] <= multiset(slice)[y] {
      TotalBounded(pre, r, h, s, y.keyword);
      assert multiset(GroupOf(g, y.keyword)) == Total(pre, r, y.keyword) + Own(x, y.keyword);
    }
    SubsetSize(m, multiset(slice));
  }

  lemma {:induction false} SubsetSize<T>(a: multiset<T>, b: multiset<T>)
    requires a <= b
    ensures |a| <= |b|
  {
    assert b == a + (b - a);
  }

  // ----- whole runs -----

  /** Every first search of a keyword, in every run whose updates fit the
      levels, answers with exactly the live ids of the updates made before it;
      and the run moves at most floor(log2 n) + 1 records per update. */
  method Run(capacity: nat, ops: seq<Request>) returns (answers: seq<seq<int>>, index: Index)
    requires capacity >= 1 && |Writes(ops)| < Pow2(if CeilLog2(capacity) < 10 then 10 else CeilLog2(capacity))
    ensures |answers| == |ops|
    ensures forall k :: 0 <= k < |ops| && ops[k].Query? && ops[k].keyword !in Queried(ops[..k]) ==>
              Ascending(answers[k])
    ensures forall k, id :: 0 <= k < |ops| && ops[k].Query? && ops[k].keyword !in Queried(ops[..k]) ==>
              (id in answers[k] <==>
               |set j: nat | j < k && ops[j] == Write(Record(ops[k].keyword, id, INS))|
               > |set j: nat | j < k && ops[j] == Write(Record(ops[k].keyword, id, DEL))|)
    ensures |Writes(ops)| >= 1 ==> index.moves <= |Writes(ops)| * (FloorLog2(|Writes(ops)|) + 1)
  {
    hide Inv, IsAnswer, Owed, Positions, CeilLog2, Total, Own, Moves, Writes, Queried, Pow2, Updated, Searched,
         LowestZero, FloorLog2;
    answers := [];
    assert ops[..0] == [];
    NothingYet();
    MovesNone();
    index := new Index(capacity);
    for k := 0 to |ops|
      invariant |answers| == k && fresh(index) && index.Valid()
      invariant index.history == Writes(ops[..k]) && index.searched == Queried(ops[..k])
      invariant |index.levels| == if CeilLog2(capacity) < 10 then 10 else CeilLog2(capacity)
      invariant index.moves <= Moves(|index.history|)
      invariant forall j :: 0 <= j < k && ops[j].Query? && ops[j].keyword !in Queried(ops[..j]) ==>
                  Owed(ops, j, ops[j].keyword, answers[j])
    {
      WritesGrow(ops, k + 1);
      WritesStep(ops, k);
      QueriedStep(ops, k);
      match ops[k]
      case Write(x) =>
        ghost var n := |index.history|;
        ghost var written := index.Update(x.op, x.keyword, x.id);
        MovesLast(n + 1);
        answers := answers + [[]];
      case Query(w) =>
        var r := index.Search(w);
        if w !in Queried(ops[..k]) { OwedIs(ops, k, w, r); }
        answers := answers + [r];
    }
    assert ops[..|ops|] == ops;
    if |Writes(ops)| >= 1 { MovesBounded(|Writes(ops)|); }
    forall k | 0 <= k < |ops| && ops[k].Query? && ops[k].keyword !in Queried(ops[..k])
      ensures Ascending(answers[k])
      ensures forall id :: id in answers[k] <==>
                |set j: nat | j < k && ops[j] == Write(Record(ops[k].keyword, id, INS))|
                > |set j: nat | j < k && ops[j] == Write(Record(ops[k].keyword, id, DEL))| {
      OwedMeans(ops, k, ops[k].keyword, answers[k]);
    }
  }

  lemma NothingYet()
    ensures Writes([]) == [] && Queried([]) == {}
  {
  }

  /** A search that came before the first insertion of its keyword makes the
      index lose that insertion: the second search answers with nothing. */
  method SearchFirstLoses() returns (r: seq<int>)
    ensures r == [] && !IsAnswer(multiset{Record("a", 1, INS)}, "a", r)
  {
    hide Total, Group, Updated, IsAnswer, LevelInv;
    var index := new Index(1);
    ghost var start := index.levels;
    var before := index.Search("a");
    ghost var pre, searched := index.levels, index.searched;
    LevelKind(start, [], {}, 0);
    assert pre[0] == Touched(start[0], "a");
    assert LowestZero(0) == 0;
    ghost var written := index.Update(INS, "a", 1);
    ghost var post := index.levels;
    r := index.Search("a");
    StillEmpty(pre, post, searched);
    EmptyAnswer(r);
  }

  lemma StillEmpty(pre: seq<Level>, post: seq<Level>, s: set<string>)
    requires Inv(pre, [], s) && |pre| > 0 && Shadowed(pre[0], "a") && Updated(pre, post, 0, Record("a", 1, INS))
    ensures Total(post, |post|, "a") == multiset{}
  {
    hide Group, Inv;
    TotalAbove(pre, post, 0, Record("a", 1, INS), |pre|, "a");
    assert Merged(pre, post[0], 0, Record("a", 1, INS), "a");
    NoRecords(pre, s);
    SumCancels(Total(post, |post|, "a"), multiset(Group(pre[0], "a")), multiset{});
  }

  lemma NoRecords(levels: seq<Level>, s: set<string>)
    requires Inv(levels, [], s)
    ensures Total(levels, |levels|, "a") == multiset{}
  {
    TotalBounded(levels, |levels|, [], s, "a");
    SlicesAreHistory([], |levels|);
  }

  lemma EmptyAnswer(r: seq<int>)
    requires IsAnswer(multiset{}, "a", r)
    ensures r == [] && !IsAnswer(multiset{Record("a", 1, INS)}, "a", r)
  {
    assert forall id :: !Live(multiset{}, "a", id);
    EmptyOrHead(r);
    assert Live(multiset{Record("a", 1, INS)}, "a", 1);
  }
}

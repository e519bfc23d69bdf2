/** One stored set of a log-structured index: a dictionary from the label
    keyword-counter to a record, enumerated in an arbitrary order that stays
    fixed while the set is not modified. */
module RecordSets {
  import opened Records

  datatype Label = Label(keyword: string, count: nat)

  datatype RecordSet = RecordSet(at: map<Label, Record>, order: seq<Label>) {

    /** order enumerates the dictionary: every key, each once. */
    ghost predicate WellFormed() {
      multiset(order) == multiset(at.Keys)
    }

    lemma KeyAt(k: nat)
      requires WellFormed() && k < |order|
      ensures order[k] in at
    {
      assert order[k] in multiset(order);
    }

    function Size(): nat {
      |at|
    }

    /** The records in enumeration order. */
    ghost function Listing(): (s: seq<Record>)
      requires WellFormed()
      ensures |s| == |order|
    {
      seq(|order|, k requires 0 <= k < |order| => KeyAt(k); at[order[k]])
    }

    /** Step an iterator pos places from begin() and read the value there. */
    function ElementAt(pos: nat): (x: Record)
      requires WellFormed() && pos < |order|
      ensures x == Listing()[pos]
    {
      KeyAt(pos);
      at[order[pos]]
    }
  }

  const Empty := RecordSet(map[], [])

  /** data[key] = x. Where the new key lands in the enumeration is left open:
      callers learn only that the result enumerates the updated dictionary. */
  method Put(s: RecordSet, key: Label, x: Record) returns (r: RecordSet)
    requires s.WellFormed()
    ensures r.WellFormed() && r.at == s.at[key := x]
  {
    r := RecordSet(s.at[key := x], if key in s.at then s.order else s.order + [key]);
  }

  /** insert(pair): an entry already present is kept. */
  method PutIfAbsent(s: RecordSet, key: Label, x: Record) returns (r: RecordSet)
    requires s.WellFormed()
    ensures r.WellFormed() && r.at == if key in s.at then s.at else s.at[key := x]
  {
    if key in s.at { r := s; } else { r := Put(s, key, x); }
  }

  /** Filling one dictionary from another may enumerate it differently. */
  method MoveInto(s: RecordSet) returns (r: RecordSet)
    requires s.WellFormed()
    ensures r.WellFormed() && r.at == s.at
  {
    r := s;
  }

  /** The dictionary obtained by labelling records one after another, each with
      the number of records of its keyword seen so far. */
  ghost function LabelAll(base: nat, recs: seq<Record>): map<Label, Record> {
    if recs == [] then map[]
    else
      var x := recs[|recs| - 1];
      var before := recs[..|recs| - 1];
      LabelAll(base, before)[Label(x.keyword, base + |Filter(before, x.keyword)|) := x]
  }

  lemma {:induction false} LabelAllAt(base: nat, recs: seq<Record>, w: string, c: nat)
    ensures Label(w, c) in LabelAll(base, recs) <==> base <= c < base + |Filter(recs, w)|
    ensures base <= c < base + |Filter(recs, w)| ==> LabelAll(base, recs)[Label(w, c)] == Filter(recs, w)[c - base]
  {
    if recs != [] {
      LabelAllAt(base, recs[..|recs| - 1], w, c);
    }
  }

  lemma {:induction false} LabelAllSize(base: nat, recs: seq<Record>)
    ensures |LabelAll(base, recs)| == |recs|
  {
    if recs != [] {
      var x := recs[|recs| - 1];
      var before := recs[..|recs| - 1];
      LabelAllSize(base, before);
      LabelAllAt(base, before, x.keyword, base + |Filter(before, x.keyword)|);
    }
  }

  ghost function LabelsFrom(at: map<Label, Record>, w: string, c: nat): set<Label> {
    set x | x in at.Keys && x.keyword == w && x.count >= c
  }

  lemma LabelsFromShrinks(at: map<Label, Record>, w: string, c: nat)
    requires Label(w, c) in at
    ensures LabelsFrom(at, w, c + 1) < LabelsFrom(at, w, c)
  {
    assert Label(w, c) in LabelsFrom(at, w, c) && Label(w, c) !in LabelsFrom(at, w, c + 1);
  }

  /** The values reached by probing label c, c + 1, ... until one is absent. */
  ghost function Probe(at: map<Label, Record>, w: string, c: nat): seq<Record>
    decreases LabelsFrom(at, w, c)
  {
    if Label(w, c) in at then
      LabelsFromShrinks(at, w, c);
      [at[Label(w, c)]] + Probe(at, w, c + 1)
    else []
  }

  lemma {:induction false} ProbeFrom(base: nat, recs: seq<Record>, w: string, c: nat)
    requires base <= c <= base + |Filter(recs, w)|
    ensures Probe(LabelAll(base, recs), w, c) == Filter(recs, w)[c - base..]
    decreases base + |Filter(recs, w)| - c
  {
    LabelAllAt(base, recs, w, c);
    if c < base + |Filter(recs, w)| { ProbeFrom(base, recs, w, c + 1); }
  }

  /** Probing finds exactly the records of the keyword, in labelling order. */
  lemma ProbeIsFilter(base: nat, recs: seq<Record>, w: string)
    ensures Probe(LabelAll(base, recs), w, base) == Filter(recs, w)
  {
    ProbeFrom(base, recs, w, base);
  }

  /** The probe-until-absent loop of both storage tiers. */
  method ProbeAll(s: RecordSet, w: string, start: nat) returns (found: seq<Record>)
    ensures found == Probe(s.at, w, start)
  {
    found := [];
    var c := start;
    while Label(w, c) in s.at
      invariant c >= start
      invariant found + Probe(s.at, w, c) == Probe(s.at, w, start)
      decreases LabelsFrom(s.at, w, c)
    {
      LabelsFromShrinks(s.at, w, c);
      found := found + [s.at[Label(w, c)]];
      c := c + 1;
    }
  }

  /** s stores the records recs, labelled in that order. */
  ghost predicate Stores(base: nat, s: RecordSet, recs: seq<Record>) {
    s.WellFormed() && s.at == LabelAll(base, recs)
  }

  /** s is a full set with the contents m. */
  ghost predicate Holds(s: RecordSet, m: multiset<Record>) {
    exists recs :: Stores(1, s, recs) && multiset(recs) == m
  }

  function Without<T>(s: seq<T>, p: nat): (r: seq<T>)
    requires p < |s|
  {
    s[..p] + s[p + 1..]
  }

  lemma WithoutMultiset<T>(s: seq<T>, p: nat)
    requires p < |s|
    ensures multiset(s) == multiset(Without(s, p)) + multiset{s[p]}
  {
    assert s == s[..p] + [s[p]] + s[p + 1..];
  }

  lemma WithoutWellFormed(s: RecordSet, p: nat, at: map<Label, Record>)
    requires s.WellFormed() && p < |s.order| && at == s.at - {s.order[p]}
    ensures RecordSet(at, Without(s.order, p)).WellFormed()
  {
    s.KeyAt(p);
    WithoutMultiset(s.order, p);
    assert at.Keys == s.at.Keys - {s.order[p]};
    assert multiset(at.Keys) == multiset(s.at.Keys) - multiset{s.order[p]};
    assert multiset(Without(s.order, p)) == multiset(s.order) - multiset{s.order[p]};
  }

  lemma WithoutListing(s: RecordSet, p: nat, at: map<Label, Record>)
    requires s.WellFormed() && p < |s.order| && at == s.at - {s.order[p]}
    requires RecordSet(at, Without(s.order, p)).WellFormed()
    ensures multiset(s.Listing()) == multiset(RecordSet(at, Without(s.order, p)).Listing()) + multiset{s.Listing()[p]}
  {
    var a, b := s.Listing(), RecordSet(at, Without(s.order, p)).Listing();
    WithoutMultiset(a, p);
    forall k | 0 <= k < |b| ensures b[k] == Without(a, p)[k] {
      var j := if k < p then k else k + 1;
      assert Without(s.order, p)[k] == s.order[j];
      assert Without(a, p)[k] == a[j];
      RecordSet(at, Without(s.order, p)).KeyAt(k);
    }
    assert b == Without(a, p);
  }

  lemma LabelAllLast(base: nat, recs: seq<Record>, x: Record)
    ensures var key := Label(x.keyword, base + |Filter(recs, x.keyword)|);
            key !in LabelAll(base, recs) && LabelAll(base, recs + [x]) == LabelAll(base, recs)[key := x]
  {
    LabelAllAt(base, recs, x.keyword, base + |Filter(recs, x.keyword)|);
    assert (recs + [x])[..|recs|] == recs;
  }

  lemma {:induction false} ListingPermutes(base: nat, s: RecordSet, recs: seq<Record>)
    requires Stores(base, s, recs)
    ensures |s.order| == |recs|
    ensures multiset(s.Listing()) == multiset(recs)
    decreases |recs|
  {
    if recs == [] {
      assert |multiset(s.order)| == 0;
    } else {
      var x := recs[|recs| - 1];
      var before := recs[..|recs| - 1];
      var key := Label(x.keyword, base + |Filter(before, x.keyword)|);
      assert recs == before + [x];
      LabelAllLast(base, before, x);
      assert key in multiset(s.order);
      var p :| 0 <= p < |s.order| && s.order[p] == key;
      assert LabelAll(base, before) == s.at - {key};
      WithoutWellFormed(s, p, LabelAll(base, before));
      ListingPermutes(base, RecordSet(LabelAll(base, before), Without(s.order, p)), before);
      WithoutListing(s, p, LabelAll(base, before));
    }
  }

  /** A full set's listing is its contents, and its size is their number. */
  lemma HoldsListing(s: RecordSet, m: multiset<Record>)
    requires Holds(s, m)
    ensures s.WellFormed() && s.Size() == |m| == |s.order|
    ensures multiset(s.Listing()) == m
  {
    var recs :| Stores(1, s, recs) && multiset(recs) == m;
    ListingPermutes(1, s, recs);
    LabelAllSize(1, recs);
  }

  lemma HoldsMoved(s: RecordSet, m: multiset<Record>, r: RecordSet)
    requires Holds(s, m) && r.WellFormed() && r.at == s.at
    ensures Holds(r, m)
  {
    var recs :| Stores(1, s, recs) && multiset(recs) == m;
    assert Stores(1, r, recs);
  }

  lemma StoresHolds(s: RecordSet, recs: seq<Record>, r: RecordSet)
    requires Stores(1, s, recs) && r.WellFormed() && r.at == s.at
    ensures Holds(r, multiset(recs)) && s.Size() == |recs|
  {
    assert Stores(1, r, recs);
    LabelAllSize(1, recs);
  }

  /** Probing a full set for w selects the records of w from its contents. */
  lemma HoldsProbe(s: RecordSet, m: multiset<Record>, w: string)
    requires Holds(s, m)
    ensures Selects(multiset(Probe(s.at, w, 1)), m, w)
  {
    hide Filter;
    var recs :| Stores(1, s, recs) && multiset(recs) == m;
    ProbeIsFilter(1, recs, w);
    FilterSelects(recs, w);
  }

  /** Adding a record under the next label of its keyword extends the labelling. */
  lemma StoresPut(base: nat, s: RecordSet, recs: seq<Record>, x: Record, r: RecordSet)
    requires Stores(base, s, recs)
    requires r.WellFormed() && r.at == s.at[Label(x.keyword, base + |Filter(recs, x.keyword)|) := x]
    ensures Stores(base, r, recs + [x])
  {
    LabelAllLast(base, recs, x);
  }

  lemma {:induction false} ProbeFrame(at: map<Label, Record>, at': map<Label, Record>, w: string, c: nat)
    requires forall k: nat :: k >= c ==> (Label(w, k) in at <==> Label(w, k) in at')
    requires forall k: nat :: k >= c && Label(w, k) in at ==> at[Label(w, k)] == at'[Label(w, k)]
    ensures Probe(at, w, c) == Probe(at', w, c)
    decreases LabelsFrom(at, w, c)
  {
    if Label(w, c) in at {
      LabelsFromShrinks(at, w, c);
      ProbeFrame(at, at', w, c + 1);
    }
  }

  /** Whatever a set stores, probing it meets no record more often than it is there. */
  lemma {:induction false} ProbeWithin(s: RecordSet, w: string, c: nat)
    requires s.WellFormed()
    ensures multiset(Probe(s.at, w, c)) <= multiset(s.Listing())
    decreases LabelsFrom(s.at, w, c)
  {
    var key := Label(w, c);
    if key in s.at {
      LabelsFromShrinks(s.at, w, c);
      assert key in multiset(s.order);
      var p :| 0 <= p < |s.order| && s.order[p] == key;
      var rest := RecordSet(s.at - {key}, Without(s.order, p));
      WithoutWellFormed(s, p, rest.at);
      WithoutListing(s, p, rest.at);
      assert LabelsFrom(rest.at, w, c + 1) == LabelsFrom(s.at, w, c + 1);
      ProbeWithin(rest, w, c + 1);
      ProbeFrame(s.at, rest.at, w, c + 1);
      assert Probe(s.at, w, c) == [s.at[key]] + Probe(rest.at, w, c + 1);
    }
  }

  lemma {:induction false} ProbeKeyword(at: map<Label, Record>, w: string, c: nat)
    requires forall key :: key in at ==> at[key].keyword == key.keyword
    ensures forall k :: 0 <= k < |Probe(at, w, c)| ==> Probe(at, w, c)[k].keyword == w
    decreases LabelsFrom(at, w, c)
  {
    if Label(w, c) in at {
      LabelsFromShrinks(at, w, c);
      ProbeKeyword(at, w, c + 1);
    }
  }
}

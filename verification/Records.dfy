/** The update records of the two log-structured indexes, and the answer a
    search owes to the whole history of updates. */
module Records {
  import opened Collections

  datatype Op = INS | DEL

  datatype Record = Record(keyword: string, id: int, op: Op)

  /** An id answers a search for w when it was inserted more often than deleted. */
  predicate Live(records: multiset<Record>, w: string, id: int) {
    records[Record(w, id, INS)] > records[Record(w, id, DEL)]
  }

  /** The specification of search: the live ids, in ascending order, each once. */
  ghost predicate IsAnswer(records: multiset<Record>, w: string, r: seq<int>) {
    Ascending(r) && forall id :: id in r <==> Live(records, w, id)
  }

  /** The specification determines the answer. */
  lemma AnswerUnique(records: multiset<Record>, w: string, a: seq<int>, b: seq<int>)
    requires IsAnswer(records, w, a) && IsAnswer(records, w, b)
    ensures a == b
  {
    AscendingUnique(a, b);
  }

  /** f is the part of m that carries the keyword w. */
  ghost predicate Selects(f: multiset<Record>, m: multiset<Record>, w: string) {
    forall r: Record :: f[r] == if r.keyword == w then m[r] else 0
  }

  lemma SelectsSameAnswer(f: multiset<Record>, m: multiset<Record>, w: string, r: seq<int>)
    requires Selects(f, m, w) && IsAnswer(f, w, r)
    ensures IsAnswer(m, w, r)
  {
    forall id ensures Live(f, w, id) == Live(m, w, id) {
      assert f[Record(w, id, INS)] == m[Record(w, id, INS)];
      assert f[Record(w, id, DEL)] == m[Record(w, id, DEL)];
    }
  }

  function Filter(s: seq<Record>, w: string): (f: seq<Record>) {
    if s == [] then []
    else
      var init := Filter(s[..|s| - 1], w);
      if s[|s| - 1].keyword == w then init + [s[|s| - 1]] else init
  }

  lemma {:induction false} FilterSelects(s: seq<Record>, w: string)
    ensures Selects(multiset(Filter(s, w)), multiset(s), w)
  {
    if s != [] {
      FilterSelects(s[..|s| - 1], w);
      assert s == s[..|s| - 1] + [s[|s| - 1]];
    }
  }

  /** 2 * op - 1, the contribution of one record to its id's balance. */
  function Weight(op: Op): int {
    if op == INS then -1 else 1
  }

  ghost predicate Balances(balance: map<int, int>, found: multiset<Record>, w: string) {
    forall id ::
      (id in balance ==> balance[id] + found[Record(w, id, INS)] == found[Record(w, id, DEL)])
      && (id !in balance ==> found[Record(w, id, DEL)] == 0 && found[Record(w, id, INS)] == 0)
  }

  lemma BalanceStep(balance: map<int, int>, found: multiset<Record>, w: string, x: Record)
    requires Balances(balance, found, w) && x.keyword == w
    ensures Balances(balance[x.id := (if x.id in balance then balance[x.id] else 0) + Weight(x.op)],
                     found + multiset{x}, w)
  {
  }

  /** remove[id] += 2 * op - 1 for every record found. */
  method SumBalances(found: seq<Record>, w: string) returns (balance: map<int, int>)
    requires forall k :: 0 <= k < |found| ==> found[k].keyword == w
    ensures Balances(balance, multiset(found), w)
  {
    balance := map[];
    for k := 0 to |found|
      invariant Balances(balance, multiset(found[..k]), w)
    {
      var x := found[k];
      assert found[..k + 1] == found[..k] + [x];
      BalanceStep(balance, multiset(found[..k]), w, x);
      balance := balance[x.id := (if x.id in balance then balance[x.id] else 0) + Weight(x.op)];
    }
    assert found[..|found|] == found;
  }

  /** Walk the ordered dictionary and keep the ids whose balance is negative. */
  method NegativeKeys(balance: map<int, int>) returns (r: seq<int>)
    ensures Ascending(r)
    ensures forall id :: id in r <==> id in balance && balance[id] < 0
  {
    var keys := OrderedKeys(balance.Keys);
    r := [];
    for k := 0 to |keys|
      invariant Ascending(r)
      invariant forall i :: 0 <= i < |r| ==> r[i] in keys[..k]
      invariant forall id :: id in r <==> id in keys[..k] && id in balance && balance[id] < 0
      invariant forall i :: 0 <= i < |r| && k < |keys| ==> r[i] < keys[k]
    {
      var id := keys[k];
      assert id in keys;
      assert keys[..k + 1] == keys[..k] + [id];
      if balance[id] < 0 { r := r + [id]; }
      assert k + 1 < |keys| ==> id < keys[k + 1];
    }
    assert keys[..|keys|] == keys;
  }

  /** The closing part of both searches: the ids with more insertions than deletions. */
  method NetAnswer(found: seq<Record>, w: string) returns (r: seq<int>)
    requires forall k :: 0 <= k < |found| ==> found[k].keyword == w
    ensures IsAnswer(multiset(found), w, r)
    ensures forall id :: id in r <==> multiset(found)[Record(w, id, INS)] > multiset(found)[Record(w, id, DEL)]
  {
    var balance := SumBalances(found, w);
    r := NegativeKeys(balance);
  }
}

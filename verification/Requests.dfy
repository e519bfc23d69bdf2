/** Runs of the two log-structured indexes: updates and searches. */
module Requests {
  import opened Collections
  import opened Records

  datatype Request = Write(record: Record) | Query(keyword: string)

  function Writes(ops: seq<Request>): seq<Record> {
    if ops == [] then []
    else
      var before := Writes(ops[..|ops| - 1]);
      match ops[|ops| - 1]
      case Write(x) => before + [x]
      case Query(_) => before
  }

  lemma WritesEmpty()
    ensures Writes([]) == []
  {
  }

  lemma WritesStep(ops: seq<Request>, k: nat)
    requires k < |ops|
    ensures Writes(ops[..k + 1]) ==
            if ops[k].Write? then Writes(ops[..k]) + [ops[k].record] else Writes(ops[..k])
  {
    assert ops[..k + 1][..k] == ops[..k];
  }

  lemma {:induction false} WritesGrow(ops: seq<Request>, k: nat)
    requires k <= |ops|
    ensures |Writes(ops[..k])| <= |Writes(ops)|
    decreases |ops|
  {
    if k < |ops| {
      WritesGrow(ops[..|ops| - 1], k);
      assert ops[..|ops| - 1][..k] == ops[..k];
    } else {
      assert ops[..k] == ops;
    }
  }

  /** The keywords searched so far. */
  ghost function Queried(ops: seq<Request>): set<string> {
    if ops == [] then {}
    else
      var before := Queried(ops[..|ops| - 1]);
      match ops[|ops| - 1]
      case Write(_) => before
      case Query(w) => before + {w}
  }

  lemma QueriedStep(ops: seq<Request>, k: nat)
    requires k < |ops|
    ensures Queried(ops[..k + 1]) ==
            if ops[k].Query? then Queried(ops[..k]) + {ops[k].keyword} else Queried(ops[..k])
  {
    assert ops[..k + 1][..k] == ops[..k];
  }

  lemma {:induction false} QueriedMeaning(ops: seq<Request>, w: string)
    ensures w in Queried(ops) <==> exists k :: 0 <= k < |ops| && ops[k] == Query(w)
  {
    if ops != [] {
      var last := |ops| - 1;
      QueriedMeaning(ops[..last], w);
      assert ops == ops[..last] + [ops[last]];
      if w in Queried(ops[..last]) {
        var k :| 0 <= k < last && ops[..last][k] == Query(w);
        assert ops[k] == Query(w);
      }
    }
  }

  /** Which of the first k operations write the record. */
  ghost function Positions(ops: seq<Request>, k: nat, x: Record): set<nat>
    requires k <= |ops|
  {
    set j: nat | j < k && ops[j] == Write(x)
  }

  /** The answer that the operations before k owe, told from their positions alone:
      the ids written more often as inserted than as deleted, in ascending order. */
  ghost predicate Owed(ops: seq<Request>, k: nat, w: string, r: seq<int>)
    requires k <= |ops|
  {
    && Ascending(r)
    && forall id :: id in r <==>
         |Positions(ops, k, Record(w, id, INS))| > |Positions(ops, k, Record(w, id, DEL))|
  }

  lemma {:induction false} WritesCount(ops: seq<Request>, k: nat, x: Record)
    requires k <= |ops|
    ensures multiset(Writes(ops[..k]))[x] == |Positions(ops, k, x)|
  {
    if k == 0 {
      assert Positions(ops, 0, x) == {};
      assert ops[..0] == [];
    } else {
      WritesCount(ops, k - 1, x);
      WritesStep(ops, k - 1);
      CountNext(Positions(ops, k - 1, x), Positions(ops, k, x), k - 1, ops[k - 1] == Write(x));
    }
  }

  lemma OwedIs(ops: seq<Request>, k: nat, w: string, r: seq<int>)
    requires k <= |ops| && IsAnswer(multiset(Writes(ops[..k])), w, r)
    ensures Owed(ops, k, w, r)
  {
    hide Writes, Positions;
    forall id ensures id in r <==>
      |Positions(ops, k, Record(w, id, INS))| > |Positions(ops, k, Record(w, id, DEL))| {
      WritesCount(ops, k, Record(w, id, INS));
      WritesCount(ops, k, Record(w, id, DEL));
    }
  }

  lemma OwedMeans(ops: seq<Request>, k: nat, w: string, r: seq<int>)
    requires k <= |ops| && Owed(ops, k, w, r)
    ensures Ascending(r)
    ensures forall id :: id in r <==>
              |set j: nat | j < k && ops[j] == Write(Record(w, id, INS))|
              > |set j: nat | j < k && ops[j] == Write(Record(w, id, DEL))|
  {
    forall id ensures id in r <==>
        |set j: nat | j < k && ops[j] == Write(Record(w, id, INS))|
        > |set j: nat | j < k && ops[j] == Write(Record(w, id, DEL))| {
      assert Positions(ops, k, Record(w, id, INS)) == set j: nat | j < k && ops[j] == Write(Record(w, id, INS));
      assert Positions(ops, k, Record(w, id, DEL)) == set j: nat | j < k && ops[j] == Write(Record(w, id, DEL));
    }
  }
}

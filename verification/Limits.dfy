/** Where the serializability checker's conditions bite: a concrete history for each of them
    (src/simloom/_consistency.py:163, 183-192). The histories are short enough to be worked out
    operation by operation. */
module Limits {
  import opened Orders
  import opened Histories
  import opened Serializability

  // --- evaluating short histories ---

  const NOTHING := Scan(map[], map[])

  lemma ScanOpsOne(s: Scan, i: nat, a: Op)
    ensures ScanOps(s, i, [a]) == s.Op(i, a)
  {
    assert [a][..0] == [];
  }

  lemma ScanOpsTwo(s: Scan, i: nat, a: Op, b: Op)
    ensures ScanOps(s, i, [a, b]) == s.Op(i, a).Op(i, b)
  {
    assert [a, b][..1] == [a];
    ScanOpsOne(s, i, a);
  }

  lemma ScanOne(t: Transaction)
    ensures ScanAll([t]) == ScanOps(NOTHING, 0, t.ops)
  {
    assert [t][..0] == [];
  }

  lemma ScanTwo(t: Transaction, u: Transaction)
    ensures ScanAll([t, u]) == ScanOps(ScanAll([t]), 1, u.ops)
  {
    assert [t, u][..1] == [t];
  }

  lemma ScanThree(t: Transaction, u: Transaction, w: Transaction)
    ensures ScanAll([t, u, w]) == ScanOps(ScanAll([t, u]), 2, w.ops)
  {
    assert [t, u, w][..2] == [t, u];
  }

  lemma RunTwo(h: seq<Transaction>, a: nat, b: nat)
    requires a < |h| && b < |h| && RunOps(map[], h[a].ops).Ran?
    ensures RunAll(h, [a, b]) == RunOps(RunOps(map[], h[a].ops).store, h[b].ops)
  {
    assert [a][..0] == [];
    assert RunAll(h, [a]) == RunOps(map[], h[a].ops);
    assert [a, b][..1] == [a];
  }

  // --- a read of a value nobody appended ---

  /** A value without an appender is skipped, so a read of it goes unquestioned. */
  function PhantomRead(): seq<Transaction> {
    [Transaction(0, 0, [Read("x", [7])])]
  }

  lemma PhantomReadIsMissed()
    ensures UniqueAppends(PhantomRead()) && AllObserved(PhantomRead())
    ensures Acyclic(Dependencies(PhantomRead())) && !Serializable(PhantomRead())
  {
    var h := PhantomRead();
    forall c ensures !IsCycle(Dependencies(h), c) {
      assert forall u, v :: (u, v) !in Dependencies(h);
    }
    if order :| Explains(h, order) {
      var m := ReadInPlace(h, order, "x", 0, [7]);
      var w := VersionWriter(h, order, "x", 0);
    }
  }

  // --- an append nobody read ---

  /** Appends nobody read get no edge: T1 saw T0's append to "y" but missed the one to "x". */
  function UnobservedAppend(): seq<Transaction> {
    [Transaction(0, 0, [Append("x", 1), Append("y", 5)]),
     Transaction(1, 1, [Read("y", [5]), Read("x", [])])]
  }

  lemma UnobservedScan()
    ensures ScanAll(UnobservedAppend()).orders == map["y" := [5], "x" := []]
    ensures ScanAll(UnobservedAppend()).appender == map[1 := 0, 5 := 0]
  {
    var h := UnobservedAppend();
    ScanTwo(h[0], h[1]);
    ScanOne(h[0]);
    ScanOpsTwo(NOTHING, 0, Append("x", 1), Append("y", 5));
    ScanOpsTwo(ScanAll([h[0]]), 1, Read("y", [5]), Read("x", []));
  }

  lemma UnobservedIsUnique()
    ensures UniqueAppends(UnobservedAppend())
  {
    var h := UnobservedAppend();
    forall i, v | 0 <= i < |h| && Appends(h[i].ops, v) ensures i == 0 {
      assert forall k :: Append(k, v) !in h[1].ops;
    }
  }

  lemma UnobservedIsAcyclic()
    ensures Acyclic(Dependencies(UnobservedAppend()))
  {
    var h := UnobservedAppend();
    UnobservedScan();
    assert Forward(Dependencies(h), [0, 1]);
    forall c ensures !IsCycle(Dependencies(h), c) {
      ForwardIsAcyclic(Dependencies(h), [0, 1], c);
    }
  }

  /** T1 has to come both after T0 and before it; the checker knows only the former. */
  lemma UnobservedEdges()
    ensures (0, 1) in Dependencies(UnobservedAppend()) && (1, 0) in UnseenEdges(UnobservedAppend())
  {
    var h := UnobservedAppend();
    UnobservedScan();
    assert Read("y", [5]) in h[1].ops && 5 in [5] && Wrote(ScanAll(h), 5, 0);
    assert Dependency(h, 0, 1, WR);
    DependsInRange(h, 0, 1);
    assert Append("x", 1) in h[0].ops && Read("x", []) in h[1].ops;
    assert Meets(Read("x", []), "x", Versions(h, "x")) && Precedes(h, 1, 0, "x");
    assert Unseen(h, 1, 0);
  }

  /** The checker finds no cycle in a history no serial order explains. */
  lemma UnobservedAppendIsMissed()
    ensures UniqueAppends(UnobservedAppend())
    ensures Acyclic(Dependencies(UnobservedAppend())) && !Serializable(UnobservedAppend())
    ensures (0, 1) in Dependencies(UnobservedAppend()) && (1, 0) in UnseenEdges(UnobservedAppend())
  {
    var h := UnobservedAppend();
    UnobservedIsUnique();
    UnobservedIsAcyclic();
    UnobservedEdges();
    assert IsCycle(Constraints(h), [0, 1]);
    if Serializable(h) {
      SerializableKeepsConstraints(h);
    }
  }

  // --- a value appended twice ---

  /** The second appender of a value takes the blame for the first one's write. */
  function SharedValue(): seq<Transaction> {
    [Transaction(0, 0, [Append("x", 1)]),
     Transaction(1, 1, [Read("x", [1]), Read("y", [])]),
     Transaction(2, 2, [Append("y", 1), Read("y", [1])])]
  }

  lemma SharedScan()
    ensures
      var s := ScanAll(SharedValue());
      "y" in s.orders && s.orders["y"] == [1] && Wrote(s, 1, 2)
  {
    var h := SharedValue();
    ScanThree(h[0], h[1], h[2]);
    ScanTwo(h[0], h[1]);
    ScanOne(h[0]);
    ScanOpsOne(NOTHING, 0, Append("x", 1));
    ScanOpsTwo(ScanAll([h[0]]), 1, Read("x", [1]), Read("y", []));
    ScanOpsTwo(ScanAll([h[0], h[1]]), 2, Append("y", 1), Read("y", [1]));
  }

  lemma SharedDependencies()
    ensures (1, 2) in Dependencies(SharedValue()) && (2, 1) in Dependencies(SharedValue())
  {
    var h := SharedValue();
    SharedScan();
    assert Read("y", []) in h[1].ops && ReadWrite(ScanAll(h), 2, "y", [], 0);
    assert Dependency(h, 1, 2, RW);
    DependsInRange(h, 1, 2);
    assert Read("x", [1]) in h[1].ops && 1 in [1] && Wrote(ScanAll(h), 1, 2);
    assert Dependency(h, 2, 1, WR);
    DependsInRange(h, 2, 1);
  }

  /** The checker reports a cycle although the recorded order explains every read. */
  lemma SharedValueIsAFalseAlarm()
    ensures !OneAppender(SharedValue())
    ensures Serializable(SharedValue()) && IsCycle(Dependencies(SharedValue()), [1, 2])
  {
    var h := SharedValue();
    assert Append("x", 1) in h[0].ops && Append("y", 1) in h[2].ops;
    assert Appends(h[0].ops, 1) && Appends(h[2].ops, 1);
    SharedDependencies();
    SharedValueRuns();
  }

  lemma SharedValueRuns()
    ensures Explains(SharedValue(), [0, 1, 2])
  {
    var h := SharedValue();
    assert [0, 1, 2][..2] == [0, 1];
    RunTwo(h, 0, 1);
    assert h[0].ops[1..] == [] && h[1].ops[1..] == [Read("y", [])] && h[2].ops[1..] == [Read("y", [1])];
    assert h[1].ops[1..][1..] == [] && h[2].ops[1..][1..] == [];
  }
}

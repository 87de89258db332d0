/** Why the dependency graph decides serializability (src/simloom/_consistency.py:1-21, 148-206). */
module Serializability {
  import opened Orders
  import opened Histories

  // ---------------------------------------------------------------------------------------------
  // States of a serial execution
  // ---------------------------------------------------------------------------------------------

  lemma {:induction false} PrefixRuns(h: seq<Transaction>, order: seq<nat>, m: nat)
    requires RunAll(h, order).Ran? && m <= |order|
    ensures RunAll(h, order[..m]).Ran?
    decreases |order|
  {
    if m == |order| {
      assert order[..m] == order;
    } else {
      var last := |order| - 1;
      PrefixRuns(h, order[..last], m);
      assert order[..last][..m] == order[..m];
    }
  }

  /** The store after the first `m` transactions. */
  ghost function State(h: seq<Transaction>, order: seq<nat>, m: nat): Store
    requires RunAll(h, order).Ran? && m <= |order|
  {
    PrefixRuns(h, order, m);
    RunAll(h, order[..m]).store
  }

  lemma StepRuns(h: seq<Transaction>, order: seq<nat>, m: nat)
    requires RunAll(h, order).Ran? && m < |order|
    ensures order[m] < |h|
    ensures RunOps(State(h, order, m), h[order[m]].ops) == Ran(State(h, order, m + 1))
  {
    PrefixRuns(h, order, m + 1);
    assert order[..m + 1][..m] == order[..m];
  }

  /** One transaction only extends lists, by its own appends, and reads a list in between. */
  ghost predicate Extends(s: Store, ops: seq<Op>, s': Store, k: Key) {
    && At(s, k) <= At(s', k)
    && (forall i | |At(s, k)| <= i < |At(s', k)| :: Append(k, At(s', k)[i]) in ops)
    && (forall observed | Read(k, observed) in ops :: At(s, k) <= observed <= At(s', k))
    && (forall v | Append(k, v) in ops :: v in At(s', k)[|At(s, k)|..])
  }

  lemma {:induction false} OpsExtend(s: Store, ops: seq<Op>, k: Key)
    requires RunOps(s, ops).Ran?
    ensures Extends(s, ops, RunOps(s, ops).store, k)
    decreases |ops|
  {
    if ops == [] {
    } else {
      var s1 := if ops[0].Append? then s[ops[0].key := At(s, ops[0].key) + [ops[0].value]] else s;
      OpsExtend(s1, ops[1..], k);
      assert forall op :: op in ops <==> op == ops[0] || op in ops[1..];
      var list := At(RunOps(s, ops).store, k);
      forall v | Append(k, v) in ops ensures v in list[|At(s, k)|..] {
        if Append(k, v) in ops[1..] {
          assert v in list[|At(s1, k)|..];
        } else {
          assert list[|At(s, k)|..][0] == v;
        }
      }
    }
  }

  /** One transaction of the order extends every list. */
  lemma StepExtends(h: seq<Transaction>, order: seq<nat>, m: nat, k: Key)
    requires RunAll(h, order).Ran? && m < |order|
    ensures order[m] < |h| && Extends(State(h, order, m), h[order[m]].ops, State(h, order, m + 1), k)
  {
    StepRuns(h, order, m);
    OpsExtend(State(h, order, m), h[order[m]].ops, k);
  }

  lemma {:induction false} StatesGrow(h: seq<Transaction>, order: seq<nat>, m: nat, n: nat, k: Key)
    requires RunAll(h, order).Ran? && m <= n <= |order|
    ensures At(State(h, order, m), k) <= At(State(h, order, n), k)
    decreases n - m
  {
    if m < n {
      StepExtends(h, order, m, k);
      StatesGrow(h, order, m + 1, n, k);
    }
  }

  /** The list a key ends with. */
  ghost function Final(h: seq<Transaction>, order: seq<nat>, k: Key): seq<Value>
    requires RunAll(h, order).Ran?
  {
    At(State(h, order, |order|), k)
  }

  /** The `m`-th transaction of the order put version `i` of key `k` into the store. */
  ghost predicate WritesVersion(h: seq<Transaction>, order: seq<nat>, k: Key, i: nat, m: nat)
    requires RunAll(h, order).Ran?
  {
    && m < |order| && order[m] < |h| && i < |Final(h, order, k)|
    && |At(State(h, order, m), k)| <= i < |At(State(h, order, m + 1), k)|
    && Append(k, Final(h, order, k)[i]) in h[order[m]].ops
  }

  /** The step at which the list of `k` grows past position `i`. */
  lemma {:induction false} GrowsPast(h: seq<Transaction>, order: seq<nat>, k: Key, i: nat, from: nat) returns (m: nat)
    requires RunAll(h, order).Ran? && from <= |order|
    requires |At(State(h, order, from), k)| <= i < |Final(h, order, k)|
    ensures m < |order| && |At(State(h, order, m), k)| <= i < |At(State(h, order, m + 1), k)|
    decreases |order| - from
  {
    if |At(State(h, order, from + 1), k)| <= i {
      m := GrowsPast(h, order, k, i, from + 1);
    } else {
      m := from;
    }
  }

  lemma {:induction false} VersionWriter(h: seq<Transaction>, order: seq<nat>, k: Key, i: nat) returns (m: nat)
    requires RunAll(h, order).Ran? && i < |Final(h, order, k)|
    ensures WritesVersion(h, order, k, i, m)
  {
    assert order[..0] == [];
    m := GrowsPast(h, order, k, i, 0);
    StepExtends(h, order, m, k);
    StatesGrow(h, order, m + 1, |order|, k);
  }

  // ---------------------------------------------------------------------------------------------
  // A serial execution orders every dependency: the checker never cries wolf
  // ---------------------------------------------------------------------------------------------

  /** A value the checker attributes to `u` was put in place by `u`. */
  lemma AttributedWriter(h: seq<Transaction>, order: seq<nat>, k: Key, i: nat, u: nat) returns (m: nat)
    requires Explains(h, order) && OneAppender(h)
    requires i < |Final(h, order, k)| && Wrote(ScanAll(h), Final(h, order, k)[i], u)
    ensures WritesVersion(h, order, k, i, m) && order[m] == u
  {
    m := VersionWriter(h, order, k, i);
    ScanAllKnows(h);
    var v := Final(h, order, k)[i];
    assert Appends(h[order[m]].ops, v) && Appends(h[u].ops, v);
  }

  /** A read sees a prefix of the final list: what its transaction found, plus own appends. */
  lemma ReadInPlace(h: seq<Transaction>, order: seq<nat>, k: Key, u: nat, observed: seq<Value>) returns (m: nat)
    requires Explains(h, order) && u < |h| && Read(k, observed) in h[u].ops
    ensures m < |order| && order[m] == u
    ensures At(State(h, order, m), k) <= observed <= At(State(h, order, m + 1), k) <= Final(h, order, k)
  {
    assert u in order;
    m :| 0 <= m < |order| && order[m] == u;
    StepExtends(h, order, m, k);
    StatesGrow(h, order, m + 1, |order|, k);
  }

  lemma VersionsAreFinalPrefix(h: seq<Transaction>, order: seq<nat>, k: Key)
    requires Explains(h, order)
    ensures Versions(h, k) <= Final(h, order, k)
  {
    ScanAllKnows(h);
    if k in ScanAll(h).orders {
      var u :| 0 <= u < |h| && Read(k, Versions(h, k)) in h[u].ops;
      var _ := ReadInPlace(h, order, k, u, Versions(h, k));
    }
  }

  /** Versions are put in place in order. */
  lemma WritersInOrder(h: seq<Transaction>, order: seq<nat>, k: Key, i: nat, m: nat, j: nat, n: nat)
    requires RunAll(h, order).Ran? && WritesVersion(h, order, k, i, m) && WritesVersion(h, order, k, j, n)
    requires i <= j
    ensures m <= n
  {
    if n < m {
      StatesGrow(h, order, n + 1, m, k);
    }
  }

  ghost predicate Before(order: seq<nat>, u: nat, v: nat) {
    exists m, n :: 0 <= m < n < |order| && order[m] == u && order[n] == v
  }

  lemma NeighboursInOrder(h: seq<Transaction>, order: seq<nat>, k: Key, i: nat, u: nat, v: nat)
    requires Explains(h, order) && OneAppender(h) && u != v && i + 1 < |Final(h, order, k)|
    requires Wrote(ScanAll(h), Final(h, order, k)[i], u) && Wrote(ScanAll(h), Final(h, order, k)[i + 1], v)
    ensures Before(order, u, v)
  {
    var m := AttributedWriter(h, order, k, i, u);
    var n := AttributedWriter(h, order, k, i + 1, v);
    WritersInOrder(h, order, k, i, m, i + 1, n);
  }

  lemma WriteWriteForward(h: seq<Transaction>, order: seq<nat>, u: nat, v: nat)
    requires Explains(h, order) && OneAppender(h) && u != v && Dependency(h, u, v, WW)
    ensures Before(order, u, v)
  {
    var k, i: nat :| WriteWrite(ScanAll(h), u, v, k, i);
    VersionsAreFinalPrefix(h, order, k);
    NeighboursInOrder(h, order, k, i, u, v);
  }

  lemma WriteReadForward(h: seq<Transaction>, order: seq<nat>, u: nat, v: nat)
    requires Explains(h, order) && OneAppender(h) && u != v && Dependency(h, u, v, WR)
    ensures Before(order, u, v)
  {
    var k, observed, x :| Read(k, observed) in h[v].ops && x in observed && Wrote(ScanAll(h), x, u);
    var n := ReadInPlace(h, order, k, v, observed);
    var i :| 0 <= i < |observed| && observed[i] == x;
    var m := AttributedWriter(h, order, k, i, u);
    if n < m {
      StatesGrow(h, order, n + 1, m, k);
    }
  }

  /** A read precedes every version it is too short to have seen. */
  lemma ReadBeforeVersion(h: seq<Transaction>, order: seq<nat>, k: Key, u: nat, observed: seq<Value>, j: nat, v: nat)
    requires Explains(h, order) && OneAppender(h) && u != v && u < |h|
    requires Read(k, observed) in h[u].ops && |observed| <= j < |Final(h, order, k)|
    requires Wrote(ScanAll(h), Final(h, order, k)[j], v)
    ensures Before(order, u, v)
  {
    var m := ReadInPlace(h, order, k, u, observed);
    var n := AttributedWriter(h, order, k, j, v);
    if n < m {
      StatesGrow(h, order, n + 1, m, k);
    }
  }

  /** In a serializable history reads are prefixes of the recovered order, as the checker assumes. */
  lemma ReadsArePrefixes(h: seq<Transaction>, order: seq<nat>, k: Key, u: nat, observed: seq<Value>)
    requires Explains(h, order) && u < |h| && Read(k, observed) in h[u].ops
    ensures observed <= Versions(h, k)
    ensures LastSeen(Versions(h, k), observed) >= |observed| - 1
  {
    VersionsAreFinalPrefix(h, order, k);
    var _ := ReadInPlace(h, order, k, u, observed);
    ScanAllKnows(h);
    assert Knows(ScanAll(h), u, Read(k, observed));
    if observed != [] {
      assert Versions(h, k)[|observed| - 1] == observed[|observed| - 1];
    }
  }

  lemma ReadWriteForward(h: seq<Transaction>, order: seq<nat>, u: nat, v: nat)
    requires Explains(h, order) && OneAppender(h) && u != v && Dependency(h, u, v, RW)
    ensures Before(order, u, v)
  {
    var k, observed, j: nat :| Read(k, observed) in h[u].ops && ReadWrite(ScanAll(h), v, k, observed, j);
    VersionsAreFinalPrefix(h, order, k);
    ReadsArePrefixes(h, order, k, u, observed);
    ReadBeforeVersion(h, order, k, u, observed, j, v);
  }

  // ---------------------------------------------------------------------------------------------
  // It orders unobserved appends too
  // ---------------------------------------------------------------------------------------------

  /** An appended value lands in the list of its key, at its transaction's turn. */
  lemma AppendLands(h: seq<Transaction>, order: seq<nat>, k: Key, w: nat, x: Value) returns (m: nat, p: nat)
    requires Explains(h, order) && w < |h| && Append(k, x) in h[w].ops
    ensures WritesVersion(h, order, k, p, m) && order[m] == w && Final(h, order, k)[p] == x
  {
    assert w in order;
    m :| 0 <= m < |order| && order[m] == w;
    StepExtends(h, order, m, k);
    var before, after := At(State(h, order, m), k), At(State(h, order, m + 1), k);
    StatesGrow(h, order, m + 1, |order|, k);
    p := FindFrom(after, |before|, x);
  }

  lemma FindFrom(list: seq<Value>, n: nat, x: Value) returns (p: nat)
    requires n <= |list| && x in list[n..]
    ensures n <= p < |list| && list[p] == x
  {
    var i :| 0 <= i < |list[n..]| && list[n..][i] == x;
    p := n + i;
  }

  /** An append that no read observed ends up behind all versions of its key. */
  lemma UnseenIsBehind(h: seq<Transaction>, order: seq<nat>, k: Key, w: nat, x: Value) returns (m: nat, p: nat)
    requires Explains(h, order) && w < |h| && Append(k, x) in h[w].ops && x !in Versions(h, k)
    ensures WritesVersion(h, order, k, p, m) && order[m] == w && p >= |Versions(h, k)|
  {
    m, p := AppendLands(h, order, k, w, x);
    VersionsAreFinalPrefix(h, order, k);
    assert forall i | 0 <= i < |Versions(h, k)| :: Final(h, order, k)[i] in Versions(h, k);
  }

  lemma ReaderPrecedes(h: seq<Transaction>, order: seq<nat>, k: Key, u: nat, observed: seq<Value>, w: nat, x: Value)
    requires Explains(h, order) && u < |h| && w < |h| && u != w
    requires Append(k, x) in h[w].ops && x !in Versions(h, k) && Read(k, observed) in h[u].ops
    ensures Before(order, u, w)
  {
    var m, p := UnseenIsBehind(h, order, k, w, x);
    var n := ReadInPlace(h, order, k, u, observed);
    ScanAllKnows(h);
    assert Knows(ScanAll(h), u, Read(k, observed));
    if m < n {
      StatesGrow(h, order, m + 1, n, k);
    }
  }

  lemma VersionLands(h: seq<Transaction>, order: seq<nat>, k: Key, u: nat, y: Value) returns (n: nat, q: nat)
    requires Explains(h, order) && OneAppender(h) && u < |h| && Append(k, y) in h[u].ops && y in Versions(h, k)
    ensures WritesVersion(h, order, k, q, n) && order[n] == u && q < |Versions(h, k)|
  {
    VersionsAreFinalPrefix(h, order, k);
    q :| 0 <= q < |Versions(h, k)| && Versions(h, k)[q] == y;
    n := VersionWriter(h, order, k, q);
    assert Appends(h[order[n]].ops, y) && Appends(h[u].ops, y);
  }

  lemma WriterPrecedes(h: seq<Transaction>, order: seq<nat>, k: Key, u: nat, y: Value, w: nat, x: Value)
    requires Explains(h, order) && OneAppender(h) && u < |h| && w < |h| && u != w
    requires Append(k, x) in h[w].ops && x !in Versions(h, k) && Append(k, y) in h[u].ops && y in Versions(h, k)
    ensures Before(order, u, w)
  {
    var m, p := UnseenIsBehind(h, order, k, w, x);
    var n, q := VersionLands(h, order, k, u, y);
    WritersInOrder(h, order, k, q, n, p, m);
  }

  lemma UnseenForward(h: seq<Transaction>, order: seq<nat>, u: nat, w: nat)
    requires Explains(h, order) && OneAppender(h) && Unseen(h, u, w)
    ensures Before(order, u, w)
  {
    var k :| Precedes(h, u, w, k);
    var x :| Append(k, x) in h[w].ops && x !in Versions(h, k);
    var op :| op in h[u].ops && Meets(op, k, Versions(h, k));
    match op {
      case Read(_, observed) => ReaderPrecedes(h, order, k, u, observed, w, x);
      case Append(_, y) => WriterPrecedes(h, order, k, u, y, w, x);
    }
  }

  /** The constraints of a serializable history, unobserved appends included, close no cycle. */
  lemma SerializableKeepsConstraints(h: seq<Transaction>)
    requires OneAppender(h) && Serializable(h)
    ensures Acyclic(Constraints(h))
  {
    var order :| Explains(h, order);
    forall i, j | 0 <= i <= j < |order| ensures (order[j], order[i]) !in Constraints(h) {
      if (order[j], order[i]) in Dependencies(h) {
        var kind :| Dependency(h, order[j], order[i], kind);
        match kind {
          case WW => WriteWriteForward(h, order, order[j], order[i]);
          case WR => WriteReadForward(h, order, order[j], order[i]);
          case RW => ReadWriteForward(h, order, order[j], order[i]);
        }
      }
      if (order[j], order[i]) in UnseenEdges(h) {
        UnseenForward(h, order, order[j], order[i]);
      }
    }
    forall c ensures !IsCycle(Constraints(h), c) {
      ForwardIsAcyclic(Constraints(h), order, c);
    }
  }

  /** With one appender per value, a serializable history has no dependency cycle: every violation
      the checker reports is real. */
  lemma SerializableIsAcyclic(h: seq<Transaction>)
    requires OneAppender(h) && Serializable(h)
    ensures Acyclic(Dependencies(h))
  {
    SerializableKeepsConstraints(h);
    forall c ensures !IsCycle(Dependencies(h), c) {
      if IsCycle(Dependencies(h), c) {
        assert Steps(Constraints(h), c);
        assert IsCycle(Constraints(h), c);
      }
    }
  }
}

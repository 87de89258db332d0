/** When "no dependency cycle" is the whole truth about serializability
    (src/simloom/_consistency.py:19-21, 148-206). */
module Exactness {
  import opened Orders
  import opened Histories
  import opened Serializability

  predicate Touches(ops: seq<Op>, k: Key) {
    exists op | op in ops :: op.key == k
  }

  /** How many versions of `k` the operations append. */
  function VersionCount(ops: seq<Op>, k: Key, versions: seq<Value>): nat {
    if ops == [] then 0
    else (if ops[0].Append? && Meets(ops[0], k, versions) then 1 else 0) + VersionCount(ops[1..], k, versions)
  }

  // ---------------------------------------------------------------------------------------------
  // One transaction against the versions of a key
  // ---------------------------------------------------------------------------------------------

  lemma {:induction false} TrailsFit(ops: seq<Op>, k: Key, versions: seq<Value>)
    requires Trails(ops, k, versions)
    ensures Fits(ops, k, versions, |versions|) && VersionCount(ops, k, versions) == 0
    decreases |ops|
  {
    if ops == [] {
    } else {
      assert ops[0] in ops;
      assert forall op | op in ops[1..] :: op in ops;
      TrailsFit(ops[1..], k, versions);
    }
  }

  /** A transaction that fits from version `n` appends exactly the next versions. */
  ghost predicate OwnRange(ops: seq<Op>, k: Key, versions: seq<Value>, n: nat) {
    var end := n + VersionCount(ops, k, versions);
    && end <= |versions|
    && (forall i | n <= i < end :: Append(k, versions[i]) in ops)
    && (forall v | Append(k, v) in ops && v in versions :: v in versions[n..end])
  }

  lemma {:induction false} FitsOwnRange(ops: seq<Op>, k: Key, versions: seq<Value>, n: nat)
    requires n <= |versions| && Fits(ops, k, versions, n)
    ensures OwnRange(ops, k, versions, n)
    decreases |ops|
  {
    if ops == [] {
    } else if ops[0].Append? && ops[0].key == k && n == |versions| {
      TrailsFit(ops[1..], k, versions);
      forall v | Append(k, v) in ops ensures v !in versions {
        assert Append(k, v) in ops[1..] ==> !Meets(Append(k, v), k, versions);
      }
    } else {
      var mine := ops[0].Append? && ops[0].key == k;
      FitsOwnRange(ops[1..], k, versions, if mine then n + 1 else n);
      var end := n + VersionCount(ops, k, versions);
      forall i | n <= i < end ensures Append(k, versions[i]) in ops {
        if mine && i == n {
          assert ops[0] == Append(k, versions[n]);
        } else {
          assert Append(k, versions[i]) in ops[1..];
        }
      }
      forall v | Append(k, v) in ops && v in versions ensures v in versions[n..end] {
        if mine && v == versions[n] {
          assert versions[n..end][0] == v;
        } else {
          assert Append(k, v) in ops[1..];
        }
      }
    }
  }

  lemma {:induction false} UntouchedFits(ops: seq<Op>, k: Key, versions: seq<Value>, n: nat)
    requires n <= |versions| && !Touches(ops, k)
    ensures Fits(ops, k, versions, n) && VersionCount(ops, k, versions) == 0 && Trails(ops, k, versions)
    decreases |ops|
  {
    if ops == [] {
    } else {
      assert ops[0] in ops;
      assert forall op | op in ops[1..] :: op in ops;
      UntouchedFits(ops[1..], k, versions, n);
    }
  }

  // ---------------------------------------------------------------------------------------------
  // One transaction against the store
  // ---------------------------------------------------------------------------------------------

  function Least(a: nat, b: nat): nat {
    if a <= b then a else b
  }

  /** The list of a key holds some of its versions, or all of them and unobserved values behind. */
  ghost predicate OnTrack(list: seq<Value>, versions: seq<Value>) {
    list <= versions || versions <= list
  }

  /** The transaction fits the key where its list stands. */
  ghost predicate FitsList(list: seq<Value>, ops: seq<Op>, k: Key, versions: seq<Value>) {
    && OnTrack(list, versions)
    && Fits(ops, k, versions, Least(|list|, |versions|))
    && (|list| > |versions| ==> Trails(ops, k, versions))
  }

  ghost predicate AppendsUnobserved(ops: seq<Op>, k: Key, versions: seq<Value>) {
    exists x :: Append(k, x) in ops && x !in versions
  }

  /** What running it makes of the list. */
  ghost predicate Moved(list: seq<Value>, ops: seq<Op>, k: Key, versions: seq<Value>, list': seq<Value>) {
    && OnTrack(list', versions)
    && Least(|list'|, |versions|) == Least(|list|, |versions|) + VersionCount(ops, k, versions)
    && (|list'| > |versions| ==> |list| > |versions| || AppendsUnobserved(ops, k, versions))
  }

  lemma {:induction false} AppendFits(list: seq<Value>, ops: seq<Op>, k: Key, versions: seq<Value>)
    requires ops != [] && ops[0].Append? && ops[0].key == k && FitsList(list, ops, k, versions)
    ensures FitsList(list + [ops[0].value], ops[1..], k, versions)
  {
    var n := |list|;
    assert forall op | op in ops[1..] :: op in ops;
    if n >= |versions| {
      assert versions <= list;
      if n > |versions| {
        assert Trails(ops[1..], k, versions);
      }
      TrailsFit(ops[1..], k, versions);
    }
  }

  lemma {:induction false} AppendMoves(list: seq<Value>, ops: seq<Op>, k: Key, versions: seq<Value>, list': seq<Value>)
    requires ops != [] && ops[0].Append? && ops[0].key == k && FitsList(list, ops, k, versions)
    requires Moved(list + [ops[0].value], ops[1..], k, versions, list')
    ensures Moved(list, ops, k, versions, list')
  {
    var v := ops[0].value;
    assert ops[0] in ops;
    if |list| < |versions| {
      assert versions[|list|] == v;
    } else {
      assert v !in versions && Append(k, v) in ops;
    }
    if AppendsUnobserved(ops[1..], k, versions) {
      var x :| Append(k, x) in ops[1..] && x !in versions;
      assert Append(k, x) in ops;
    }
  }

  lemma {:induction false} OtherFits(list: seq<Value>, ops: seq<Op>, k: Key, versions: seq<Value>)
    requires ops != [] && (ops[0].Read? || ops[0].key != k) && FitsList(list, ops, k, versions)
    ensures FitsList(list, ops[1..], k, versions)
    ensures ops[0].key == k ==> ops[0].observed == list
  {
    assert ops[0] in ops;
    assert forall op | op in ops[1..] :: op in ops;
  }

  lemma {:induction false} OtherMoves(list: seq<Value>, ops: seq<Op>, k: Key, versions: seq<Value>, list': seq<Value>)
    requires ops != [] && (ops[0].Read? || ops[0].key != k)
    requires Moved(list, ops[1..], k, versions, list')
    ensures Moved(list, ops, k, versions, list')
  {
    if AppendsUnobserved(ops[1..], k, versions) {
      var x :| Append(k, x) in ops[1..] && x !in versions;
      assert Append(k, x) in ops;
    }
  }

  /** A transaction that fits every key where the store stands runs, and moves the store on. */
  lemma {:induction false} FittingRuns(s: Store, ops: seq<Op>, versions: Key -> seq<Value>)
    requires forall k :: FitsList(At(s, k), ops, k, versions(k))
    ensures RunOps(s, ops).Ran?
    ensures forall k :: Moved(At(s, k), ops, k, versions(k), At(RunOps(s, ops).store, k))
    decreases |ops|
  {
    if ops == [] {
      forall k ensures Moved(At(s, k), ops, k, versions(k), At(s, k)) {
        assert FitsList(At(s, k), ops, k, versions(k));
      }
    } else {
      var key := ops[0].key;
      assert FitsList(At(s, key), ops, key, versions(key));
      var s1 := if ops[0].Append? then s[key := At(s, key) + [ops[0].value]] else s;
      forall k ensures FitsList(At(s1, k), ops[1..], k, versions(k)) {
        assert FitsList(At(s, k), ops, k, versions(k));
        if ops[0].Append? && k == key {
          AppendFits(At(s, k), ops, k, versions(k));
        } else {
          OtherFits(At(s, k), ops, k, versions(k));
        }
      }
      if ops[0].Read? {
        OtherFits(At(s, key), ops, key, versions(key));
      }
      FittingRuns(s1, ops[1..], versions);
      forall k ensures Moved(At(s, k), ops, k, versions(k), At(RunOps(s, ops).store, k)) {
        assert FitsList(At(s, k), ops, k, versions(k));
        if ops[0].Append? && k == key {
          AppendMoves(At(s, k), ops, k, versions(k), At(RunOps(s, ops).store, k));
        } else {
          OtherMoves(At(s, k), ops, k, versions(k), At(RunOps(s, ops).store, k));
        }
      }
    }
  }

  // ---------------------------------------------------------------------------------------------
  // Acyclic and coherent: a topological order is a serial order
  // ---------------------------------------------------------------------------------------------

  /** The transaction that wrote version `i` of `k`. */
  ghost function Writer(h: seq<Transaction>, k: Key, i: nat): (u: nat)
    requires Sourced(h) && i < |Versions(h, k)|
    ensures u < |h| && Wrote(ScanAll(h), Versions(h, k)[i], u)
    ensures Appends(h[u].ops, Versions(h, k)[i])
  {
    ScanAllKnows(h);
    var v := Versions(h, k)[i];
    assert v in Versions(h, k);
    var j :| 0 <= j < |h| && Append(k, v) in h[j].ops;
    assert Knows(ScanAll(h), j, Append(k, v));
    ScanAll(h).appender[v]
  }

  /** With one appender per value, the writer of a version of `k` appended it to `k`. */
  lemma WriterAppends(h: seq<Transaction>, k: Key, i: nat, u: nat)
    requires Sourced(h) && OneAppender(h) && i < |Versions(h, k)| && u < |h|
    ensures Writer(h, k, i) == u <==> Append(k, Versions(h, k)[i]) in h[u].ops
  {
    var v := Versions(h, k)[i];
    assert v in Versions(h, k);
    var j :| 0 <= j < |h| && Append(k, v) in h[j].ops;
    assert Appends(h[j].ops, v) && Appends(h[Writer(h, k, i)].ops, v);
    if Append(k, v) in h[u].ops {
      assert Appends(h[u].ops, v);
    }
  }

  ghost predicate Topological(h: seq<Transaction>, order: seq<nat>) {
    Lists(order, Below(|h|)) && Forward(Constraints(h), order)
  }

  ghost function Position(h: seq<Transaction>, order: seq<nat>, u: nat): (m: nat)
    requires Lists(order, Below(|h|)) && u < |h|
    ensures m < |order| && order[m] == u
  {
    assert u in Below(|h|) && u in order;
    var m :| 0 <= m < |order| && order[m] == u;
    m
  }

  lemma DependencyPosition(h: seq<Transaction>, order: seq<nat>, u: nat, v: nat, kind: DepKind)
    requires Topological(h, order) && u < |h| && v < |h| && Dependency(h, u, v, kind)
    ensures Position(h, order, u) <= Position(h, order, v)
  {
    if u != v {
      DependsInRange(h, u, v);
      assert (u, v) in Dependencies(h);
    }
  }

  lemma UnseenPosition(h: seq<Transaction>, order: seq<nat>, u: nat, w: nat, k: Key)
    requires Topological(h, order) && u < |h| && w < |h| && u != w && Precedes(h, u, w, k)
    ensures Position(h, order, u) < Position(h, order, w)
  {
    assert Unseen(h, u, w) && (u, w) in UnseenEdges(h);
  }

  lemma {:induction false} WritersAscend(h: seq<Transaction>, order: seq<nat>, k: Key, i: nat, j: nat)
    requires Topological(h, order) && Sourced(h) && i <= j < |Versions(h, k)|
    ensures Position(h, order, Writer(h, k, i)) <= Position(h, order, Writer(h, k, j))
    decreases j
  {
    if i < j {
      WritersAscend(h, order, k, i, j - 1);
      assert WriteWrite(ScanAll(h), Writer(h, k, j - 1), Writer(h, k, j), k, j - 1);
      DependencyPosition(h, order, Writer(h, k, j - 1), Writer(h, k, j), WW);
    }
  }

  /** Transaction `u` found exactly the first `n` versions of `k`: writers of those do not come
      after it, and it does not come after any other. */
  ghost predicate Separates(h: seq<Transaction>, order: seq<nat>, u: nat, k: Key, n: nat)
    requires Topological(h, order) && Sourced(h) && u < |h|
  {
    && (forall i | 0 <= i < n && i < |Versions(h, k)| :: Position(h, order, Writer(h, k, i)) <= Position(h, order, u))
    && (forall i | n <= i < |Versions(h, k)| :: Position(h, order, u) <= Position(h, order, Writer(h, k, i)))
  }

  lemma ReadSeparates(h: seq<Transaction>, order: seq<nat>, u: nat, k: Key, n: nat)
    requires Topological(h, order) && Sourced(h) && u < |h| && n <= |Versions(h, k)|
    requires Read(k, Versions(h, k)[..n]) in h[u].ops
    ensures Separates(h, order, u, k, n)
  {
    var versions := Versions(h, k);
    var observed := versions[..n];
    ScanAllKnows(h);
    assert Knows(ScanAll(h), u, Read(k, observed));
    forall i | 0 <= i < n ensures Position(h, order, Writer(h, k, i)) <= Position(h, order, u) {
      assert observed[i] in observed;
      DependencyPosition(h, order, Writer(h, k, i), u, WR);
    }
    assert Distinct(versions);
    assert LastSeen(versions, observed) == n - 1;
    forall i | n <= i < |versions| ensures Position(h, order, u) <= Position(h, order, Writer(h, k, i)) {
      assert ReadWrite(ScanAll(h), Writer(h, k, i), k, observed, i);
      DependencyPosition(h, order, u, Writer(h, k, i), RW);
    }
  }

  lemma AppendSeparates(h: seq<Transaction>, order: seq<nat>, u: nat, k: Key, n: nat)
    requires Topological(h, order) && Sourced(h) && OneAppender(h) && u < |h| && n < |Versions(h, k)|
    requires Append(k, Versions(h, k)[n]) in h[u].ops
    ensures Separates(h, order, u, k, n)
  {
    WriterAppends(h, k, n, u);
    forall i | 0 <= i < |Versions(h, k)|
      ensures i <= n ==> Position(h, order, Writer(h, k, i)) <= Position(h, order, u)
      ensures i >= n ==> Position(h, order, u) <= Position(h, order, Writer(h, k, i))
    {
      WritersAscend(h, order, k, if i <= n then i else n, if i <= n then n else i);
    }
  }

  ghost predicate MeetsVersions(ops: seq<Op>, k: Key, versions: seq<Value>) {
    exists op :: op in ops && Meets(op, k, versions)
  }

  lemma {:induction false} MeetingSeparates(h: seq<Transaction>, order: seq<nat>, u: nat, ops: seq<Op>, k: Key, n: nat)
    requires Topological(h, order) && Sourced(h) && OneAppender(h) && u < |h|
    requires forall op | op in ops :: op in h[u].ops
    requires MeetsVersions(ops, k, Versions(h, k)) && n <= |Versions(h, k)| && Fits(ops, k, Versions(h, k), n)
    ensures Separates(h, order, u, k, n)
    decreases |ops|
  {
    var op :| op in ops && Meets(op, k, Versions(h, k));
    assert op == ops[0] || op in ops[1..];
    assert ops[0] in h[u].ops;
    if ops[0].key != k {
      MeetingSeparates(h, order, u, ops[1..], k, n);
    } else if ops[0].Read? {
      ReadSeparates(h, order, u, k, n);
    } else {
      assert n < |Versions(h, k)|;
      AppendSeparates(h, order, u, k, n);
    }
  }

  /** The writers at work before step `m` of the order wrote exactly the first `n` versions of `k`. */
  ghost predicate Cut(h: seq<Transaction>, order: seq<nat>, m: nat, k: Key, n: nat)
    requires Topological(h, order) && Sourced(h)
  {
    && n <= |Versions(h, k)|
    && forall i | 0 <= i < |Versions(h, k)| :: i < n <==> Position(h, order, Writer(h, k, i)) < m
  }

  /** Which versions are `u`'s own. */
  lemma OwnVersions(h: seq<Transaction>, u: nat, k: Key, n: nat, i: nat)
    requires Sourced(h) && OneAppender(h) && u < |h| && n <= |Versions(h, k)|
    requires Fits(h[u].ops, k, Versions(h, k), n) && i < |Versions(h, k)|
    ensures n + VersionCount(h[u].ops, k, Versions(h, k)) <= |Versions(h, k)|
    ensures Writer(h, k, i) == u <==> n <= i < n + VersionCount(h[u].ops, k, Versions(h, k))
  {
    var versions := Versions(h, k);
    FitsOwnRange(h[u].ops, k, versions, n);
    WriterAppends(h, k, i, u);
    assert Distinct(versions);
    if Append(k, versions[i]) in h[u].ops {
      var own := versions[n..n + VersionCount(h[u].ops, k, Versions(h, k))];
      var p :| 0 <= p < |own| && own[p] == versions[i];
      assert versions[n + p] == versions[i];
    }
  }

  lemma CutIsUnique(h: seq<Transaction>, order: seq<nat>, m: nat, k: Key, a: nat, b: nat)
    requires Topological(h, order) && Sourced(h) && Cut(h, order, m, k, a) && Cut(h, order, m, k, b)
    ensures a == b
  {
    var i := if a < b then a else b;
    if i < |Versions(h, k)| {
      var early := Position(h, order, Writer(h, k, i)) < m;
      assert i < a <==> early;
    }
  }

  /** A transaction that reads `k` or writes its versions starts from what those before it wrote. */
  lemma StartsAtCut(h: seq<Transaction>, order: seq<nat>, m: nat, k: Key) returns (start: nat)
    requires Topological(h, order) && Coherent(h) && OneAppender(h)
    requires m < |order| && order[m] < |h| && MeetsVersions(h[order[m]].ops, k, Versions(h, k))
    ensures Cut(h, order, m, k, start) && Fits(h[order[m]].ops, k, Versions(h, k), start)
  {
    var u := order[m];
    assert FitsSomewhere(h[u].ops, k, Versions(h, k));
    start :| start <= |Versions(h, k)| && Fits(h[u].ops, k, Versions(h, k), start);
    MeetingSeparates(h, order, u, h[u].ops, k, start);
    forall i | 0 <= i < |Versions(h, k)| ensures i < start <==> Position(h, order, Writer(h, k, i)) < m {
      OwnVersions(h, u, k, start, i);
    }
  }

  /** Some transaction before step `m` appended an unobserved value to `k`. */
  ghost predicate Spilled(h: seq<Transaction>, order: seq<nat>, m: nat, k: Key)
    requires m <= |order|
  {
    exists j :: 0 <= j < m && order[j] < |h| && AppendsUnobserved(h[order[j]].ops, k, Versions(h, k))
  }

  /** Before a transaction that reads `k` or writes its versions, nothing unobserved was appended. */
  lemma NotSpilled(h: seq<Transaction>, order: seq<nat>, m: nat, k: Key)
    requires Topological(h, order)
    requires m < |order| && order[m] < |h| && MeetsVersions(h[order[m]].ops, k, Versions(h, k))
    ensures !Spilled(h, order, m, k)
  {
    if Spilled(h, order, m, k) {
      var j :| 0 <= j < m && order[j] < |h| && AppendsUnobserved(h[order[j]].ops, k, Versions(h, k));
      var u, w := order[m], order[j];
      assert Precedes(h, u, w, k);
      UnseenPosition(h, order, u, w, k);
    }
  }

  /** Before a transaction with nothing but unobserved appends to `k`, all versions are written. */
  lemma AllWritten(h: seq<Transaction>, order: seq<nat>, m: nat, k: Key, n: nat)
    requires Topological(h, order) && Sourced(h) && OneAppender(h)
    requires m < |order| && order[m] < |h| && Touches(h[order[m]].ops, k)
    requires Trails(h[order[m]].ops, k, Versions(h, k)) && Cut(h, order, m, k, n)
    ensures n == |Versions(h, k)|
  {
    var u, versions := order[m], Versions(h, k);
    var op :| op in h[u].ops && op.key == k;
    assert !Meets(op, k, versions) && Append(k, op.value) in h[u].ops;
    if n < |versions| {
      var writer := Writer(h, k, n);
      WriterAppends(h, k, n, writer);
      assert Meets(Append(k, versions[n]), k, versions);
      assert Precedes(h, writer, u, k);
      assert writer != u by {
        assert Trails(h[u].ops, k, versions);
      }
      UnseenPosition(h, order, writer, u, k);
    }
  }

  /** At its turn, a transaction fits every key where its list stands. */
  lemma TurnFits(h: seq<Transaction>, order: seq<nat>, m: nat, k: Key, list: seq<Value>)
    requires Topological(h, order) && Coherent(h) && OneAppender(h)
    requires m < |order| && order[m] < |h|
    requires OnTrack(list, Versions(h, k)) && Cut(h, order, m, k, Least(|list|, |Versions(h, k)|))
    requires |list| > |Versions(h, k)| ==> Spilled(h, order, m, k)
    ensures FitsList(list, h[order[m]].ops, k, Versions(h, k))
  {
    var ops, versions := h[order[m]].ops, Versions(h, k);
    var n := Least(|list|, |versions|);
    if MeetsVersions(ops, k, versions) {
      NotSpilled(h, order, m, k);
      var start := StartsAtCut(h, order, m, k);
      CutIsUnique(h, order, m, k, n, start);
    } else if Touches(ops, k) {
      AllWritten(h, order, m, k, n);
      TrailsFit(ops, k, versions);
    } else {
      UntouchedFits(ops, k, versions, n);
    }
  }

  /** Its own appends move the cut to the next step. */
  lemma CutAdvances(h: seq<Transaction>, order: seq<nat>, m: nat, k: Key, n: nat)
    requires Topological(h, order) && Coherent(h) && OneAppender(h)
    requires m < |order| && order[m] < |h| && Cut(h, order, m, k, n)
    requires Fits(h[order[m]].ops, k, Versions(h, k), n)
    ensures Cut(h, order, m + 1, k, n + VersionCount(h[order[m]].ops, k, Versions(h, k)))
  {
    var u := order[m];
    FitsOwnRange(h[u].ops, k, Versions(h, k), n);
    forall i | 0 <= i < |Versions(h, k)|
      ensures i < n + VersionCount(h[u].ops, k, Versions(h, k)) <==> Position(h, order, Writer(h, k, i)) < m + 1
    {
      OwnVersions(h, u, k, n, i);
      if Writer(h, k, i) != u {
        assert order[Position(h, order, Writer(h, k, i))] != order[m];
      }
    }
  }

  /** Where the list of `k` stands before step `m`. */
  ghost predicate ListUpTo(h: seq<Transaction>, order: seq<nat>, m: nat, k: Key, list: seq<Value>)
    requires Topological(h, order) && Sourced(h) && m <= |order|
  {
    && OnTrack(list, Versions(h, k))
    && Cut(h, order, m, k, Least(|list|, |Versions(h, k)|))
    && (|list| > |Versions(h, k)| ==> Spilled(h, order, m, k))
  }

  lemma ListAdvances(h: seq<Transaction>, order: seq<nat>, m: nat, k: Key, list: seq<Value>, list': seq<Value>)
    requires Topological(h, order) && Coherent(h) && OneAppender(h)
    requires m < |order| && order[m] < |h| && ListUpTo(h, order, m, k, list)
    requires FitsList(list, h[order[m]].ops, k, Versions(h, k))
    requires Moved(list, h[order[m]].ops, k, Versions(h, k), list')
    ensures ListUpTo(h, order, m + 1, k, list')
  {
    CutAdvances(h, order, m, k, Least(|list|, |Versions(h, k)|));
    if |list| > |Versions(h, k)| {
      var j :| 0 <= j < m && order[j] < |h| && AppendsUnobserved(h[order[j]].ops, k, Versions(h, k));
      assert Spilled(h, order, m + 1, k);
    }
  }

  ghost predicate UpTo(h: seq<Transaction>, order: seq<nat>, m: nat)
    requires Topological(h, order) && Coherent(h) && m <= |order|
  {
    && RunAll(h, order[..m]).Ran?
    && forall k :: ListUpTo(h, order, m, k, At(RunAll(h, order[..m]).store, k))
  }

  lemma {:induction false} TopologicalRuns(h: seq<Transaction>, order: seq<nat>, m: nat)
    requires Topological(h, order) && Coherent(h) && OneAppender(h) && m <= |order|
    ensures UpTo(h, order, m)
  {
    if m == 0 {
      assert order[..0] == [];
    } else {
      TopologicalRuns(h, order, m - 1);
      assert order[..m][..m - 1] == order[..m - 1];
      var s := RunAll(h, order[..m - 1]).store;
      assert order[m - 1] in Below(|h|);
      var ops := h[order[m - 1]].ops;
      var versions := (k: Key) => Versions(h, k);
      forall k ensures FitsList(At(s, k), ops, k, versions(k)) {
        assert ListUpTo(h, order, m - 1, k, At(s, k));
        TurnFits(h, order, m - 1, k, At(s, k));
      }
      FittingRuns(s, ops, versions);
      assert RunAll(h, order[..m]) == RunOps(s, ops);
      forall k ensures ListUpTo(h, order, m, k, At(RunOps(s, ops).store, k)) {
        assert ListUpTo(h, order, m - 1, k, At(s, k)) && FitsList(At(s, k), ops, k, versions(k));
        assert Moved(At(s, k), ops, k, versions(k), At(RunOps(s, ops).store, k));
        ListAdvances(h, order, m - 1, k, At(s, k), At(RunOps(s, ops).store, k));
      }
    }
  }

  /** A coherent history whose constraints close no cycle is explained by any topological order. */
  lemma AcyclicIsSerializable(h: seq<Transaction>)
    requires Coherent(h) && OneAppender(h) && Acyclic(Constraints(h))
    ensures Serializable(h)
  {
    var order := Linearize(Constraints(h), Below(|h|));
    TopologicalRuns(h, order, |order|);
    assert order[..|order|] == order;
    assert Explains(h, order);
  }

  // ---------------------------------------------------------------------------------------------
  // Serializable histories are coherent
  // ---------------------------------------------------------------------------------------------

  lemma {:induction false} OwnAppendsDistinct(s: Store, ops: seq<Op>, k: Key, i: nat, j: nat)
    requires AppendsOnce(ops) && RunOps(s, ops).Ran?
    requires |At(s, k)| <= i < j < |At(RunOps(s, ops).store, k)|
    ensures At(RunOps(s, ops).store, k)[i] != At(RunOps(s, ops).store, k)[j]
    decreases |ops|
  {
    var s1 := if ops[0].Append? then s[ops[0].key := At(s, ops[0].key) + [ops[0].value]] else s;
    OpsExtend(s1, ops[1..], k);
    var rest := ops[1..];
    assert AppendsOnce(rest) by {
      assert forall n | 0 <= n < |rest| :: rest[n] == ops[n + 1];
    }
    if i < |At(s1, k)| {
      assert At(RunOps(s, ops).store, k)[i] == ops[0].value;
      var n :| 0 <= n < |rest| && rest[n] == Append(k, At(RunOps(s, ops).store, k)[j]);
      assert ops[n + 1] == rest[n];
    } else {
      OwnAppendsDistinct(s1, rest, k, i, j);
    }
  }

  lemma FinalDistinct(h: seq<Transaction>, order: seq<nat>, k: Key)
    requires Explains(h, order) && UniqueAppends(h)
    ensures Distinct(Final(h, order, k))
  {
    var final := Final(h, order, k);
    forall i, j | 0 <= i < j < |final| ensures final[i] != final[j] {
      if final[i] == final[j] {
        var m := VersionWriter(h, order, k, i);
        var n := VersionWriter(h, order, k, j);
        assert Appends(h[order[m]].ops, final[i]) && Appends(h[order[n]].ops, final[i]);
        assert m == n;
        StepRuns(h, order, m);
        StatesGrow(h, order, m + 1, |order|, k);
        OwnAppendsDistinct(State(h, order, m), h[order[m]].ops, k, i, j);
      }
    }
  }

  lemma VersionsAreFinal(h: seq<Transaction>, order: seq<nat>, k: Key)
    requires Explains(h, order) && UniqueAppends(h) && AllObserved(h)
    ensures Versions(h, k) == Final(h, order, k)
  {
    var final := Final(h, order, k);
    VersionsAreFinalPrefix(h, order, k);
    FinalDistinct(h, order, k);
    var n := |Versions(h, k)|;
    if n < |final| {
      var m := VersionWriter(h, order, k, n);
    }
  }

  /** The lists a transaction runs through are prefixes of `final`, and it reads no more than the versions. */
  ghost predicate RunsWithin(s: Store, ops: seq<Op>, k: Key, versions: seq<Value>, final: seq<Value>) {
    && RunOps(s, ops).Ran? && At(RunOps(s, ops).store, k) <= final
    && versions <= final && Distinct(final)
    && forall observed | Read(k, observed) in ops :: |observed| <= |versions|
  }

  lemma {:induction false} RunTrails(s: Store, ops: seq<Op>, k: Key, versions: seq<Value>, final: seq<Value>)
    requires RunsWithin(s, ops, k, versions, final) && |At(s, k)| > |versions|
    ensures Trails(ops, k, versions)
  {
    OpsExtend(s, ops, k);
    var list, list' := At(s, k), At(RunOps(s, ops).store, k);
    assert forall observed | Read(k, observed) in ops :: |list| <= |observed|;
    forall v | Append(k, v) in ops ensures v !in versions {
      var i :| 0 <= i < |list'[|list|..]| && list'[|list|..][i] == v;
      assert final[|list| + i] == v;
    }
    forall op | op in ops && op.key == k ensures !Meets(op, k, versions) {
      OpOnKey(op);
    }
  }

  lemma OpOnKey(op: Op)
    ensures op == if op.Read? then Read(op.key, op.observed) else Append(op.key, op.value)
  {
  }

  function AfterOp(s: Store, op: Op): Store {
    if op.Append? then s[op.key := At(s, op.key) + [op.value]] else s
  }

  lemma {:induction false} RunsOnWithin(s: Store, ops: seq<Op>, k: Key, versions: seq<Value>, final: seq<Value>)
    requires ops != [] && RunsWithin(s, ops, k, versions, final)
    ensures RunsWithin(AfterOp(s, ops[0]), ops[1..], k, versions, final)
    ensures At(AfterOp(s, ops[0]), k) <= final
    ensures ops[0].Read? && ops[0].key == k ==> ops[0].observed == At(s, k) && |At(s, k)| <= |versions|
  {
    assert ops[0] in ops;
    assert forall op | op in ops[1..] :: op in ops;
    OpsExtend(AfterOp(s, ops[0]), ops[1..], k);
  }

  lemma {:induction false} RunFits(s: Store, ops: seq<Op>, k: Key, versions: seq<Value>, final: seq<Value>)
    requires RunsWithin(s, ops, k, versions, final)
    ensures Fits(ops, k, versions, Least(|At(s, k)|, |versions|))
    decreases |ops|
  {
    if ops != [] {
      var s1, n := AfterOp(s, ops[0]), |At(s, k)|;
      RunsOnWithin(s, ops, k, versions, final);
      if ops[0].Append? && ops[0].key == k && n >= |versions| {
        assert final[n] == ops[0].value;
        RunTrails(s1, ops[1..], k, versions, final);
      } else {
        RunFits(s1, ops[1..], k, versions, final);
      }
    }
  }

  lemma SerializableIsSourced(h: seq<Transaction>)
    requires Serializable(h) && UniqueAppends(h)
    ensures Sourced(h)
  {
    var order :| Explains(h, order);
    forall k ensures Distinct(Versions(h, k)) {
      FinalDistinct(h, order, k);
      VersionsAreFinalPrefix(h, order, k);
    }
    forall k, v | v in Versions(h, k) ensures exists i :: 0 <= i < |h| && Append(k, v) in h[i].ops {
      VersionsAreFinalPrefix(h, order, k);
      var i :| 0 <= i < |Versions(h, k)| && Versions(h, k)[i] == v;
      var m := VersionWriter(h, order, k, i);
    }
  }

  /** Where its turn came in a serial explanation, a transaction fits the versions of a key. */
  lemma TurnWithin(h: seq<Transaction>, order: seq<nat>, m: nat, k: Key)
    requires Explains(h, order) && UniqueAppends(h) && m < |order| && order[m] < |h|
    ensures RunsWithin(State(h, order, m), h[order[m]].ops, k, Versions(h, k), Final(h, order, k))
  {
    var u := order[m];
    StepRuns(h, order, m);
    StatesGrow(h, order, m + 1, |order|, k);
    VersionsAreFinalPrefix(h, order, k);
    FinalDistinct(h, order, k);
    forall observed | Read(k, observed) in h[u].ops ensures |observed| <= |Versions(h, k)| {
      ReadsArePrefixes(h, order, k, u, observed);
    }
  }

  lemma SerializableIsCoherent(h: seq<Transaction>)
    requires Serializable(h) && UniqueAppends(h)
    ensures Coherent(h)
  {
    SerializableIsSourced(h);
    var order :| Explains(h, order);
    forall i, k | 0 <= i < |h| ensures FitsSomewhere(h[i].ops, k, Versions(h, k)) {
      assert i in Below(|h|) && i in order;
      var m :| 0 <= m < |order| && order[m] == i;
      TurnWithin(h, order, m, k);
      RunFits(State(h, order, m), h[i].ops, k, Versions(h, k), Final(h, order, k));
    }
  }

  // ---------------------------------------------------------------------------------------------
  // The exact conditions
  // ---------------------------------------------------------------------------------------------

  /** What serializability is, for all histories with globally unique appends: the dependencies the
      checker records, together with those it does not record because nobody read the append, close no
      cycle, and each transaction by itself is consistent with the version orders. */
  lemma SerializableExactly(h: seq<Transaction>)
    requires UniqueAppends(h)
    ensures Serializable(h) <==> Acyclic(Constraints(h)) && Coherent(h)
  {
    if Serializable(h) {
      SerializableKeepsConstraints(h);
      SerializableIsCoherent(h);
    }
    if Acyclic(Constraints(h)) && Coherent(h) {
      AcyclicIsSerializable(h);
    }
  }

  /** What the checker's answer is worth, whatever it is: "violation" is always right, and "ok" is right
      if and only if the history is coherent and the unobserved appends close no cycle either. */
  lemma VerdictIsRight(h: seq<Transaction>)
    requires UniqueAppends(h)
    ensures !Acyclic(Dependencies(h)) ==> !Serializable(h)
    ensures Acyclic(Dependencies(h)) ==> (Serializable(h) <==> Coherent(h) && Acyclic(Constraints(h)))
  {
    SerializableExactly(h);
    if Serializable(h) {
      SerializableIsAcyclic(h);
    }
  }

  lemma NothingUnseen(h: seq<Transaction>)
    requires AllObserved(h)
    ensures Constraints(h) == Dependencies(h)
  {
    assert forall u: nat, w: nat :: !Unseen(h, u, w);
  }

  /** If every append was observed, the checker's own graph is the one that counts. */
  lemma SerializableIffAcyclicAndCoherent(h: seq<Transaction>)
    requires UniqueAppends(h) && AllObserved(h)
    ensures Serializable(h) <==> Acyclic(Dependencies(h)) && Coherent(h)
  {
    SerializableExactly(h);
    NothingUnseen(h);
  }

  // ---------------------------------------------------------------------------------------------
  // Histories of plain transactions: the cycle search alone decides
  // ---------------------------------------------------------------------------------------------

  lemma {:induction false} PlainFits(ops: seq<Op>, k: Key, versions: seq<Value>, n: nat)
    requires Plain(ops) && n <= |versions|
    requires forall observed | Read(k, observed) in ops :: observed == versions[..n]
    requires forall v | Append(k, v) in ops :: if n < |versions| then v == versions[n] else v !in versions
    ensures Fits(ops, k, versions, n)
    decreases |ops|
  {
    if ops == [] {
    } else {
      var rest := ops[1..];
      assert forall op | op in rest :: op in ops;
      assert Plain(rest) by {
        assert forall i | 0 <= i < |rest| :: rest[i] == ops[i + 1];
      }
      assert ops[0] in ops;
      if ops[0].Append? && ops[0].key == k {
        assert forall i | 0 <= i < |rest| :: rest[i] == ops[i + 1] && rest[i].key != k;
        UntouchedFits(rest, k, versions, if n < |versions| then n + 1 else n);
      } else {
        PlainFits(rest, k, versions, n);
      }
    }
  }

  /** Two reads of one key by a transaction that has not written what they differ in: a two-cycle. */
  lemma ReadsAgree(h: seq<Transaction>, order: seq<nat>, u: nat, k: Key, a: nat, b: nat)
    requires Topological(h, order) && Sourced(h) && OneAppender(h) && u < |h|
    requires Plain(h[u].ops) && a <= |Versions(h, k)| && b <= |Versions(h, k)|
    requires Read(k, Versions(h, k)[..a]) in h[u].ops && Read(k, Versions(h, k)[..b]) in h[u].ops
    ensures a >= b
  {
    if a < b {
      ReadSeparates(h, order, u, k, a);
      ReadSeparates(h, order, u, k, b);
      WriterAppends(h, k, a, u);
    }
  }

  /** An append that does not follow the versions its transaction read closes a cycle. */
  lemma AppendFollowsRead(h: seq<Transaction>, order: seq<nat>, u: nat, k: Key, n: nat, p: nat)
    requires Topological(h, order) && Sourced(h) && OneAppender(h) && u < |h|
    requires Plain(h[u].ops) && n <= |Versions(h, k)| && p < |Versions(h, k)|
    requires Read(k, Versions(h, k)[..n]) in h[u].ops && Append(k, Versions(h, k)[p]) in h[u].ops
    ensures p == n
  {
    var versions := Versions(h, k);
    assert forall i | 0 <= i < n :: versions[..n][i] == versions[i];
    if n < p {
      ReadSeparates(h, order, u, k, n);
      WriterAppends(h, k, p, u);
      WritersAscend(h, order, k, n, p);
      WriterAppends(h, k, n, u);
    }
  }

  /** So does an append that nobody observed, of a transaction that has not read all versions. */
  lemma UnobservedFollowsAll(h: seq<Transaction>, order: seq<nat>, u: nat, k: Key, n: nat, x: Value)
    requires Topological(h, order) && Sourced(h) && OneAppender(h) && u < |h|
    requires Plain(h[u].ops) && n <= |Versions(h, k)|
    requires Read(k, Versions(h, k)[..n]) in h[u].ops && Append(k, x) in h[u].ops && x !in Versions(h, k)
    ensures n == |Versions(h, k)|
  {
    var versions := Versions(h, k);
    if n < |versions| {
      var writer := Writer(h, k, n);
      ReadSeparates(h, order, u, k, n);
      WriterAppends(h, k, n, u);
      WriterAppends(h, k, n, writer);
      assert writer != u by {
        if Append(k, versions[n]) in h[u].ops {
          OneAppendPerKey(h[u].ops, k, x, versions[n]);
        }
      }
      assert Meets(Append(k, versions[n]), k, versions) && Precedes(h, writer, u, k);
      UnseenPosition(h, order, writer, u, k);
    }
  }

  lemma OneAppendPerKey(ops: seq<Op>, k: Key, v: Value, w: Value)
    requires Plain(ops) && Append(k, v) in ops && Append(k, w) in ops
    ensures v == w
  {
    var i :| 0 <= i < |ops| && ops[i] == Append(k, v);
    var j :| 0 <= j < |ops| && ops[j] == Append(k, w);
  }

  lemma TouchKinds(ops: seq<Op>, k: Key)
    ensures Touches(ops, k) <==>
      (exists observed :: Read(k, observed) in ops) || (exists v :: Append(k, v) in ops)
  {
    forall op | op in ops && op.key == k
      ensures op == if op.Read? then Read(k, op.observed) else Append(k, op.value)
    {
    }
  }

  lemma PlainFitsSomewhere(h: seq<Transaction>, order: seq<nat>, u: nat, k: Key)
    requires Topological(h, order) && Sourced(h) && OneAppender(h)
    requires ReadsArePrefixesOfVersions(h) && u < |h| && Plain(h[u].ops)
    ensures FitsSomewhere(h[u].ops, k, Versions(h, k))
  {
    var ops, versions := h[u].ops, Versions(h, k);
    if observed :| Read(k, observed) in ops {
      var n := |observed|;
      assert observed == versions[..n];
      forall other | Read(k, other) in ops ensures other == versions[..n] {
        assert other == versions[..|other|];
        ReadsAgree(h, order, u, k, n, |other|);
        ReadsAgree(h, order, u, k, |other|, n);
      }
      forall v | Append(k, v) in ops ensures if n < |versions| then v == versions[n] else v !in versions {
        if v in versions {
          var p :| 0 <= p < |versions| && versions[p] == v;
          AppendFollowsRead(h, order, u, k, n, p);
        } else {
          UnobservedFollowsAll(h, order, u, k, n, v);
        }
      }
      PlainFits(ops, k, versions, n);
    } else if v :| Append(k, v) in ops {
      var p := LastIndex(versions, v);
      forall w | Append(k, w) in ops ensures w == v {
        OneAppendPerKey(ops, k, v, w);
      }
      var n: nat := if p < 0 then |versions| else p;
      PlainFits(ops, k, versions, n);
    } else {
      TouchKinds(ops, k);
      UntouchedFits(ops, k, versions, 0);
    }
  }

  /** For plain transactions with globally unique appends, and reads that are prefixes of sourced
      version orders, coherence comes for free: some serial execution reproduces every recorded read
      exactly when the constraints close no cycle. */
  lemma PlainHistoriesExactly(h: seq<Transaction>)
    requires UniqueAppends(h) && Sourced(h) && ReadsArePrefixesOfVersions(h)
    requires forall i | 0 <= i < |h| :: Plain(h[i].ops)
    ensures Serializable(h) <==> Acyclic(Constraints(h))
  {
    if Acyclic(Constraints(h)) {
      var order := Linearize(Constraints(h), Below(|h|));
      forall i, k | 0 <= i < |h| ensures FitsSomewhere(h[i].ops, k, Versions(h, k)) {
        PlainFitsSomewhere(h, order, i, k);
      }
    }
    SerializableExactly(h);
  }

  /** If, besides, every append was observed, the checker says "serializable" exactly when it is. */
  lemma PlainHistoriesDecided(h: seq<Transaction>)
    requires UniqueAppends(h) && AllObserved(h) && Sourced(h) && ReadsArePrefixesOfVersions(h)
    requires forall i | 0 <= i < |h| :: Plain(h[i].ops)
    ensures Serializable(h) <==> Acyclic(Dependencies(h))
  {
    PlainHistoriesExactly(h);
    NothingUnseen(h);
  }
}

/** List-append histories, serial executions and the dependency relation between transactions
    (the vocabulary of src/simloom/_consistency.py), with the constraints the checker records and those it
    does not. */
module Histories {
  import opened Orders

  type Key = string
  type Value = int

  datatype Op =
    | Append(key: Key, value: Value)
    | Read(key: Key, observed: seq<Value>)

  datatype Transaction = Transaction(index: nat, process: int, ops: seq<Op>)

  /** A recorded history: `record` numbers the transactions in completion order. */
  ghost predicate Indexed(h: seq<Transaction>) {
    forall i | 0 <= i < |h| :: h[i].index == i
  }

  // ---------------------------------------------------------------------------------------------
  // Serial execution on initially empty lists
  // ---------------------------------------------------------------------------------------------

  type Store = map<Key, seq<Value>>

  function At(s: Store, k: Key): seq<Value> {
    if k in s then s[k] else []
  }

  datatype Execution = Diverged | Ran(store: Store)

  /** Appends extend the list of their key; a read must observe the whole list. */
  function RunOps(s: Store, ops: seq<Op>): Execution
    decreases |ops|
  {
    if ops == [] then Ran(s) else
    match ops[0]
    case Append(k, v) => RunOps(s[k := At(s, k) + [v]], ops[1..])
    case Read(k, observed) => if At(s, k) == observed then RunOps(s, ops[1..]) else Diverged
  }

  /** The transactions listed in `order`, one after the other. */
  function RunAll(h: seq<Transaction>, order: seq<nat>): Execution {
    if order == [] then Ran(map[]) else
    var last := |order| - 1;
    match RunAll(h, order[..last])
    case Diverged => Diverged
    case Ran(s) => if order[last] < |h| then RunOps(s, h[order[last]].ops) else Diverged
  }

  ghost predicate Explains(h: seq<Transaction>, order: seq<nat>) {
    Lists(order, Below(|h|)) && RunAll(h, order).Ran?
  }

  /** Some order of the transactions, executed serially, reproduces every recorded read. */
  ghost predicate Serializable(h: seq<Transaction>) {
    exists order :: Explains(h, order)
  }

  // ---------------------------------------------------------------------------------------------
  // What the checker recovers in its first pass
  // ---------------------------------------------------------------------------------------------

  /** The longest read of each key (the first of them), and who appended each value (the last). */
  datatype Scan = Scan(orders: map<Key, seq<Value>>, appender: map<Value, nat>)
  {
    function Op(i: nat, op: Op): Scan {
      match op
      case Append(_, v) => this.(appender := appender[v := i])
      case Read(k, observed) =>
        if k !in orders || |observed| > |orders[k]| then this.(orders := orders[k := observed]) else this
    }
  }

  function ScanOps(s: Scan, i: nat, ops: seq<Op>): Scan {
    if ops == [] then s else ScanOps(s, i, ops[..|ops| - 1]).Op(i, ops[|ops| - 1])
  }

  function ScanAll(h: seq<Transaction>): Scan {
    if h == [] then Scan(map[], map[]) else
    ScanOps(ScanAll(h[..|h| - 1]), |h| - 1, h[|h| - 1].ops)
  }

  /** The recovered version order of a key; nothing for a key that was never read. */
  function Versions(h: seq<Transaction>, k: Key): seq<Value> {
    At(ScanAll(h).orders, k)
  }

  ghost predicate Wrote(s: Scan, v: Value, u: nat) {
    v in s.appender && s.appender[v] == u
  }

  /** What a scan of the first `n` transactions and some operations of the next one knows. */
  ghost predicate Knows(s: Scan, i: nat, op: Op) {
    match op
    case Append(_, v) => v in s.appender
    case Read(k, observed) => k in s.orders && |observed| <= |s.orders[k]|
  }

  ghost predicate Justified(h: seq<Transaction>, s: Scan) {
    && (forall k | k in s.orders :: exists i :: 0 <= i < |h| && Read(k, s.orders[k]) in h[i].ops)
    && (forall v | v in s.appender :: s.appender[v] < |h| && Appends(h[s.appender[v]].ops, v))
  }

  ghost predicate Appends(ops: seq<Op>, v: Value) {
    exists k :: Append(k, v) in ops
  }

  lemma ScanOpJustified(h: seq<Transaction>, s: Scan, i: nat, op: Op)
    requires Justified(h, s) && i < |h| && op in h[i].ops
    ensures Justified(h, s.Op(i, op))
  {
    var after := s.Op(i, op);
    forall v | v in after.appender ensures after.appender[v] < |h| && Appends(h[after.appender[v]].ops, v) {
      if op.Append? && v == op.value {
        assert Append(op.key, v) in h[i].ops;
      }
    }
  }

  lemma {:induction false} ScanOpsKnows(h: seq<Transaction>, s: Scan, i: nat, ops: seq<Op>)
    requires i < |h| && forall op | op in ops :: op in h[i].ops
    requires Justified(h, s)
    ensures Justified(h, ScanOps(s, i, ops))
    ensures forall op | op in ops :: Knows(ScanOps(s, i, ops), i, op)
    ensures forall j, op | Knows(s, j, op) :: Knows(ScanOps(s, i, ops), j, op)
  {
    if ops == [] {
    } else {
      var last := |ops| - 1;
      var before := ScanOps(s, i, ops[..last]);
      ScanOpsKnows(h, s, i, ops[..last]);
      ScanOpJustified(h, before, i, ops[last]);
      assert forall op | op in ops :: op in ops[..last] || op == ops[last];
    }
  }

  /** The first pass sees every operation, and what it recovers was really recorded. */
  lemma {:induction false} ScanAllKnows(h: seq<Transaction>)
    ensures Justified(h, ScanAll(h))
    ensures forall i, op | 0 <= i < |h| && op in h[i].ops :: Knows(ScanAll(h), i, op)
  {
    if h == [] {
    } else {
      var last := |h| - 1;
      ScanAllKnows(h[..last]);
      var s := ScanAll(h[..last]);
      assert Justified(h, s) by {
        forall k | k in s.orders ensures exists i :: 0 <= i < |h| && Read(k, s.orders[k]) in h[i].ops {
          var i :| 0 <= i < last && Read(k, s.orders[k]) in h[..last][i].ops;
          assert Read(k, s.orders[k]) in h[i].ops;
        }
      }
      ScanOpsKnows(h, s, last, h[last].ops);
      forall i, op | 0 <= i < |h| && op in h[i].ops ensures Knows(ScanAll(h), i, op) {
        if i < last {
          assert op in h[..last][i].ops;
        }
      }
    }
  }

  // ---------------------------------------------------------------------------------------------
  // Dependencies
  // ---------------------------------------------------------------------------------------------

  datatype DepKind = WW | WR | RW

  /** `index_of`: where a value stands in the version order, its last position if repeated. */
  function LastIndex(order: seq<Value>, v: Value): (i: int)
    ensures -1 <= i < |order|
    ensures i >= 0 ==> order[i] == v
    ensures forall j | i < j < |order| :: order[j] != v
  {
    if order == [] then -1
    else if order[|order| - 1] == v then |order| - 1
    else LastIndex(order[..|order| - 1], v)
  }

  function LastSeen(order: seq<Value>, observed: seq<Value>): (i: int)
    ensures -1 <= i < |order|
  {
    if observed == [] then -1 else LastIndex(order, observed[|observed| - 1])
  }

  ghost predicate WriteWrite(s: Scan, u: nat, v: nat, k: Key, i: nat) {
    && k in s.orders && i + 1 < |s.orders[k]|
    && Wrote(s, s.orders[k][i], u) && Wrote(s, s.orders[k][i + 1], v)
  }

  ghost predicate ReadWrite(s: Scan, v: nat, k: Key, observed: seq<Value>, j: nat) {
    && k in s.orders && LastSeen(s.orders[k], observed) < j < |s.orders[k]|
    && Wrote(s, s.orders[k][j], v)
  }

  /** One dependency of the given kind: `u` must come before `v`. */
  ghost predicate Dependency(h: seq<Transaction>, u: nat, v: nat, kind: DepKind) {
    var s := ScanAll(h);
    match kind
    case WW => exists k, i: nat :: WriteWrite(s, u, v, k, i)
    case WR => v < |h| && exists k, observed, x ::
      Read(k, observed) in h[v].ops && x in observed && Wrote(s, x, u)
    case RW => u < |h| && exists k, observed, j: nat ::
      Read(k, observed) in h[u].ops && ReadWrite(s, v, k, observed, j)
  }

  ghost predicate Depends(h: seq<Transaction>, u: nat, v: nat) {
    u != v && exists kind :: Dependency(h, u, v, kind)
  }

  ghost function Dependencies(h: seq<Transaction>): set<(nat, nat)> {
    set u, v | 0 <= u < |h| && 0 <= v < |h| && Depends(h, u, v) :: (u, v)
  }

  /** Dependencies only relate transactions of the history. */
  lemma DependsInRange(h: seq<Transaction>, u: nat, v: nat)
    ensures Depends(h, u, v) <==> (u, v) in Dependencies(h)
  {
    ScanAllKnows(h);
  }

  // ---------------------------------------------------------------------------------------------
  // Conditions on histories
  // ---------------------------------------------------------------------------------------------

  /** No value is appended by two transactions. */
  ghost predicate OneAppender(h: seq<Transaction>) {
    forall i, j, v | 0 <= i < |h| && 0 <= j < |h| && Appends(h[i].ops, v) && Appends(h[j].ops, v) :: i == j
  }

  ghost predicate AppendsOnce(ops: seq<Op>) {
    forall i, j | 0 <= i < j < |ops| && ops[i].Append? && ops[j].Append? :: ops[i].value != ops[j].value
  }

  /** Globally unique appends: no value is appended twice. */
  ghost predicate UniqueAppends(h: seq<Transaction>) {
    OneAppender(h) && forall i | 0 <= i < |h| :: AppendsOnce(h[i].ops)
  }

  /** Every append shows up in the recovered version order of its key. */
  ghost predicate AllObserved(h: seq<Transaction>) {
    forall i, k, v | 0 <= i < |h| && Append(k, v) in h[i].ops :: v in Versions(h, k)
  }

  // --- appends that no read observed ---

  /** The operation reads `k`, or appends one of its versions. */
  predicate Meets(op: Op, k: Key, versions: seq<Value>) {
    op.key == k && (op.Read? || op.value in versions)
  }

  /** Transaction `w` appended a value to `k` that is not among its versions, so it comes after all
      transactions that read `k` or wrote its versions. The checker records no such edge. */
  ghost predicate Precedes(h: seq<Transaction>, u: nat, w: nat, k: Key)
    requires u < |h| && w < |h|
  {
    && (exists x :: Append(k, x) in h[w].ops && x !in Versions(h, k))
    && (exists op :: op in h[u].ops && Meets(op, k, Versions(h, k)))
  }

  ghost predicate Unseen(h: seq<Transaction>, u: nat, w: nat) {
    u < |h| && w < |h| && u != w && exists k :: Precedes(h, u, w, k)
  }

  ghost function UnseenEdges(h: seq<Transaction>): set<(nat, nat)> {
    set u, w | 0 <= u < |h| && 0 <= w < |h| && Unseen(h, u, w) :: (u, w)
  }

  /** Everything a serial order has to respect: what the checker knows, and what it does not. */
  ghost function Constraints(h: seq<Transaction>): set<(nat, nat)> {
    Dependencies(h) + UnseenEdges(h)
  }

  // --- transactions against the version orders ---

  /** On `k` there are only appends that no read observed. */
  predicate Trails(ops: seq<Op>, k: Key, versions: seq<Value>) {
    forall op | op in ops && op.key == k :: !Meets(op, k, versions)
  }

  /** Operations of one transaction on `k`, replayed from the first `n` versions of the key. Once all
      versions are there, appends that no read observed may follow, and nothing else after them. */
  predicate Fits(ops: seq<Op>, k: Key, versions: seq<Value>, n: nat)
    requires n <= |versions|
  {
    if ops == [] then true else
    match ops[0]
    case Append(k', v) =>
      if k' != k then Fits(ops[1..], k, versions, n)
      else if n < |versions| then versions[n] == v && Fits(ops[1..], k, versions, n + 1)
      else v !in versions && Trails(ops[1..], k, versions)
    case Read(k', observed) =>
      (k' == k ==> observed == versions[..n]) && Fits(ops[1..], k, versions, n)
  }

  ghost predicate FitsSomewhere(ops: seq<Op>, k: Key, versions: seq<Value>) {
    exists n: nat :: n <= |versions| && Fits(ops, k, versions, n)
  }

  /** The recovered version orders hold nothing but values appended to their key, each once. */
  ghost predicate Sourced(h: seq<Transaction>) {
    && (forall k :: Distinct(Versions(h, k)))
    && (forall k, v | v in Versions(h, k) :: exists i :: 0 <= i < |h| && Append(k, v) in h[i].ops)
  }

  /** Every transaction, on its own, is consistent with the recovered version orders too. */
  ghost predicate Coherent(h: seq<Transaction>) {
    Sourced(h) && forall i, k | 0 <= i < |h| :: FitsSomewhere(h[i].ops, k, Versions(h, k))
  }

  /** A transaction of the usual shape: per key at most one append, reads of the key only before it,
      and none of them already showing the value about to be appended. */
  ghost predicate Plain(ops: seq<Op>) {
    && (forall i, j | 0 <= i < j < |ops| && ops[i].Append? :: ops[i].key != ops[j].key)
    && (forall k, v, observed | Append(k, v) in ops && Read(k, observed) in ops :: v !in observed)
  }

  ghost predicate ReadsArePrefixesOfVersions(h: seq<Transaction>) {
    forall i, k, observed | 0 <= i < |h| && Read(k, observed) in h[i].ops :: observed <= Versions(h, k)
  }
}

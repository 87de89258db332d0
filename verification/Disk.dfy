/** A host's disk with fsync and power cuts (src/simloom/_world.py:36-122). */
module Disks {
  import opened Wrappers
  import opened Tapes

  type Path = string

  datatype DiskError = FileNotFound(path: Path)

  function Lookup(files: map<Path, Bytes>, path: Path): Option<Bytes> {
    if path in files then Some(files[path]) else None
  }

  function Commit(files: map<Path, Bytes>, path: Path, data: Option<Bytes>): map<Path, Bytes> {
    match data
    case None => files - {path}
    case Some(bytes) => files[path := bytes]
  }

  /** What has reached the platter, and the buffer cache over it; None is a pending delete. */
  datatype DiskState = DiskState(synced: map<Path, Bytes>, buffered: map<Path, Option<Bytes>>)
  {
    /** What a running program sees: the buffer cache first. */
    function Visible(path: Path): Option<Bytes> {
      if path in buffered then buffered[path] else Lookup(synced, path)
    }

    function Write(path: Path, data: Bytes): DiskState {
      this.(buffered := buffered[path := Some(data)])
    }

    function Delete(path: Path): DiskState {
      if Visible(path).None? then this else this.(buffered := buffered[path := None])
    }

    function Fsync(path: Path): DiskState {
      if path in buffered then DiskState(Commit(synced, path, buffered[path]), buffered - {path}) else this
    }

    function FsyncAll(): (d: DiskState)
      ensures d.buffered == map[]
      ensures forall path :: Lookup(d.synced, path) == Visible(path)
    {
      DiskState(
        map path | path in synced.Keys + buffered.Keys && Visible(path).Some? :: Visible(path).value,
        map[])
    }

    function DropUnsynced(): DiskState {
      DiskState(synced, map[])
    }

    /** What a power cut leaves of one path, and of the whole disk, under these fates. */
    function Kept(fates: map<Path, Fate>, path: Path): Option<Bytes> {
      if path in buffered && path in fates then
        Cut(Lookup(synced, path), buffered[path], fates[path].fate, fates[path].tear)
      else Lookup(synced, path)
    }

    function Struck(fates: map<Path, Fate>): (d: DiskState)
      ensures d.buffered == map[]
      ensures forall path :: Lookup(d.synced, path) == Kept(fates, path)
    {
      DiskState(
        map path | path in synced.Keys + buffered.Keys && Kept(fates, path).Some? :: Kept(fates, path).value,
        map[])
    }

    /** What a power cut may leave of one path: its last synced state, the latest unsynced write (or
        delete) in full, or a proper nonempty prefix of that write. */
    ghost predicate MayKeep(path: Path, kept: Option<Bytes>) {
      || kept == Lookup(synced, path)
      || (path in buffered && kept == buffered[path])
      || (path in buffered && buffered[path].Some? && Torn(buffered[path].value, kept))
    }

    /** A disk this one may become in a power cut. */
    ghost predicate MayBecome(after: DiskState) {
      after.buffered == map[] && forall path :: MayKeep(path, Lookup(after.synced, path))
    }
  }

  ghost predicate Torn(data: Bytes, kept: Option<Bytes>) {
    exists cut | 0 < cut < |data| :: kept == Some(data[..cut])
  }

  /** What becomes of a path in the buffer cache: lost, torn or flushed, as the tape decides. */
  function Cut(synced: Option<Bytes>, buffered: Option<Bytes>, fate: nat, tear: nat): Option<Bytes> {
    match buffered
    case None => if fate == 1 then None else synced
    case Some(bytes) =>
      if fate == 1 && |bytes| > 1 && 1 + tear < |bytes| then Some(bytes[..1 + tear])
      else if fate == 2 then Some(bytes)
      else synced
  }

  // ---------------------------------------------------------------------------------------------
  // The order of paths
  // ---------------------------------------------------------------------------------------------

  /** Lexicographic order, a proper prefix coming first. */
  predicate Before(a: Path, b: Path) {
    b != [] && (a == [] || a[0] < b[0] || (a[0] == b[0] && Before(a[1..], b[1..])))
  }

  lemma {:induction false} BeforeIsTotal(a: Path, b: Path)
    ensures Before(a, b) || Before(b, a) || a == b
    ensures !(Before(a, b) && Before(b, a))
  {
    if a != [] && b != [] && a[0] == b[0] {
      BeforeIsTotal(a[1..], b[1..]);
      assert a == [a[0]] + a[1..] && b == [b[0]] + b[1..];
    }
  }

  lemma {:induction false} BeforeIsTransitive(a: Path, b: Path, c: Path)
    requires Before(a, b) && Before(b, c)
    ensures Before(a, c)
  {
    if a != [] && a[0] == b[0] == c[0] {
      BeforeIsTransitive(a[1..], b[1..], c[1..]);
    }
  }

  predicate IsLeast(path: Path, paths: set<Path>) {
    path in paths && forall other | other in paths && other != path :: Before(path, other)
  }

  ghost function Least(paths: set<Path>): (path: Path)
    requires paths != {}
    ensures IsLeast(path, paths)
  {
    LeastExists(paths);
    var path :| IsLeast(path, paths);
    path
  }

  lemma {:induction false} LeastExists(paths: set<Path>)
    requires paths != {}
    ensures exists path :: IsLeast(path, paths)
  {
    var path :| path in paths;
    if paths != {path} {
      LeastExists(paths - {path});
      var other :| IsLeast(other, paths - {path});
      BeforeIsTotal(path, other);
      if Before(path, other) {
        forall third | third in paths && third != path && third != other ensures Before(path, third) {
          BeforeIsTransitive(path, other, third);
        }
        assert IsLeast(path, paths);
      } else {
        assert IsLeast(other, paths);
      }
    } else {
      assert IsLeast(path, paths);
    }
  }


  /** The paths in order. */
  ghost function Sorted(paths: set<Path>): (order: seq<Path>)
    ensures forall path :: path in order <==> path in paths
  {
    if paths == {} then [] else
    var first := Least(paths);
    [first] + Sorted(paths - {first})
  }

  lemma {:induction false} SortedAscends(paths: set<Path>)
    ensures Ascending(Sorted(paths))
  {
    if paths != {} {
      SortedAscends(paths - {Least(paths)});
    }
  }

  /** However the least path is found, it comes next. */
  lemma SortedStep(order: seq<Path>, rest: set<Path>, path: Path)
    requires IsLeast(path, rest)
    ensures (order + [path]) + Sorted(rest - {path}) == order + Sorted(rest)
  {
    BeforeIsTotal(path, Least(rest));
    assert Sorted(rest) == [path] + Sorted(rest - {path});
  }

  ghost predicate Ascending(order: seq<Path>) {
    forall i, j | 0 <= i < j < |order| :: Before(order[i], order[j])
  }

  // ---------------------------------------------------------------------------------------------
  // Power cuts
  // ---------------------------------------------------------------------------------------------

  /** What was drawn for one path; the tear is 0 where none is drawn. */
  datatype Fate = Fate(fate: nat, tear: nat)
  {
    predicate TearsUp(data: Option<Bytes>) {
      fate == 1 && data.Some? && |data.value| > 1
    }

    /** An answer the tape may give. */
    predicate Fits(data: Option<Bytes>) {
      && fate < (if data.None? then 2 else 3)
      && (if TearsUp(data) then tear < |data.value| - 1 else tear == 0)
    }

    /** The draws it is recorded as: one for the fate, and one for the tear of a torn write. */
    function Draws(data: Option<Bytes>): seq<Draw>
      requires Fits(data)
    {
      [Choice("disk.fate", fate, if data.None? then 2 else 3)]
      + (if TearsUp(data) then [Choice("disk.tear", tear, |data.value| - 1)] else [])
    }
  }

  /** The fates of a path are exactly what a power cut may leave of it. */
  lemma FatesAreExact(d: DiskState, path: Path, kept: Option<Bytes>)
    requires path in d.buffered
    ensures d.MayKeep(path, kept) <==>
      exists f: Fate ::
        f.Fits(d.buffered[path]) && Cut(Lookup(d.synced, path), d.buffered[path], f.fate, f.tear) == kept
  {
    var synced, data := Lookup(d.synced, path), d.buffered[path];
    var lost, flushed := Fate(0, 0), Fate(if data.None? then 1 else 2, 0);
    assert lost.Fits(data) && Cut(synced, data, lost.fate, lost.tear) == synced;
    assert flushed.Fits(data) && Cut(synced, data, flushed.fate, flushed.tear) == data;
    if data.Some? && Torn(data.value, kept) {
      var cut: int :| 0 < cut < |data.value| && kept == Some(data.value[..cut]);
      var torn := Fate(1, cut - 1);
      assert torn.Fits(data) && Cut(synced, data, torn.fate, torn.tear) == kept;
    }
    forall f: Fate | f.Fits(data) && f.TearsUp(data) ensures Torn(data.value, Cut(synced, data, f.fate, f.tear)) {
      assert 0 < 1 + f.tear < |data.value|;
    }
  }

  function DrawFate(data: Option<Bytes>, tape: TapeState): Result<(TapeState, Fate), DrawError> {
    match tape.Drawn("disk.fate", if data.None? then 2 else 3)
    case Err(e) => Err(e)
    case Ok((t, fate)) =>
      if !Fate(fate, 0).TearsUp(data) then Ok((t, Fate(fate, 0))) else
      match t.Drawn("disk.tear", |data.value| - 1)
      case Err(e) => Err(e)
      case Ok((t, tear)) => Ok((t, Fate(fate, tear)))
  }

  /** The fates of the given paths, drawn in this order. */
  function DrawFates(buffered: map<Path, Option<Bytes>>, order: seq<Path>, tape: TapeState)
    : (r: Result<(TapeState, map<Path, Fate>), DrawError>)
    requires forall path | path in order :: path in buffered
    ensures r.Ok? ==> forall path :: path in r.value.1 <==> path in order
  {
    if order == [] then Ok((tape, map[])) else
    var last := |order| - 1;
    match DrawFates(buffered, order[..last], tape)
    case Err(e) => Err(e)
    case Ok((t, fates)) =>
      match DrawFate(buffered[order[last]], t)
      case Err(e) => Err(e)
      case Ok((t, fate)) => Ok((t, fates[order[last] := fate]))
  }

  /** Each of these paths has a fate the tape may give it. */
  ghost predicate AllFit(buffered: map<Path, Option<Bytes>>, paths: seq<Path>, fates: map<Path, Fate>) {
    forall path | path in paths :: path in buffered && path in fates && fates[path].Fits(buffered[path])
  }

  /** The draws these fates are recorded as, path by path. */
  ghost function FateDraws(buffered: map<Path, Option<Bytes>>, paths: seq<Path>, fates: map<Path, Fate>): seq<Draw>
    requires AllFit(buffered, paths, fates)
  {
    if paths == [] then [] else
    var last := |paths| - 1;
    FateDraws(buffered, paths[..last], fates) + fates[paths[last]].Draws(buffered[paths[last]])
  }

  lemma FateIsDrawn(data: Option<Bytes>, tape: TapeState)
    requires DrawFate(data, tape).Ok?
    ensures
      var (t, fate) := DrawFate(data, tape).value;
      fate.Fits(data) && t.draws == tape.draws + fate.Draws(data)
  {
  }

  /** Whatever the tape answers, one fate is drawn for every path, in order, and one tear for every
      torn write; the tape records just these draws. */
  lemma {:induction false} FatesAreDrawn(buffered: map<Path, Option<Bytes>>, paths: seq<Path>, tape: TapeState)
    requires forall path | path in paths :: path in buffered
    requires forall i, j | 0 <= i < j < |paths| :: paths[i] != paths[j]
    requires DrawFates(buffered, paths, tape).Ok?
    ensures
      var (t, fates) := DrawFates(buffered, paths, tape).value;
      AllFit(buffered, paths, fates) && t.draws == tape.draws + FateDraws(buffered, paths, fates)
    decreases |paths|
  {
    if paths != [] {
      var last := |paths| - 1;
      FatesAreDrawn(buffered, paths[..last], tape);
      var (t, fates) := DrawFates(buffered, paths[..last], tape).value;
      FateIsDrawn(buffered[paths[last]], t);
      var fates' := DrawFates(buffered, paths, tape).value.1;
      assert fates' == fates[paths[last] := fates'[paths[last]]];
      SameFatesSameDraws(buffered, paths[..last], fates, fates');
    }
  }

  lemma {:induction false} SameFatesSameDraws(
    buffered: map<Path, Option<Bytes>>, paths: seq<Path>, a: map<Path, Fate>, b: map<Path, Fate>)
    requires AllFit(buffered, paths, a)
    requires forall path | path in paths :: path in b && b[path] == a[path]
    ensures AllFit(buffered, paths, b) && FateDraws(buffered, paths, a) == FateDraws(buffered, paths, b)
    decreases |paths|
  {
    if paths != [] {
      SameFatesSameDraws(buffered, paths[..|paths| - 1], a, b);
    }
  }

  lemma StruckMayBecome(d: DiskState, paths: seq<Path>, fates: map<Path, Fate>)
    requires AllFit(d.buffered, paths, fates) && forall path :: path in paths <==> path in d.buffered
    ensures d.MayBecome(d.Struck(fates))
  {
    forall path ensures d.MayKeep(path, d.Kept(fates, path)) {
      if path in d.buffered {
        FatesAreExact(d, path, d.Kept(fates, path));
      }
    }
  }

  /** Every disk a power cut may leave is left by some fates. */
  lemma SomeFates(d: DiskState, after: DiskState) returns (fates: map<Path, Fate>)
    requires d.MayBecome(after)
    ensures fates.Keys == d.buffered.Keys && after == d.Struck(fates)
    ensures forall path | path in d.buffered :: fates[path].Fits(d.buffered[path])
  {
    forall path | path in d.buffered ensures exists f: Fate :: Explains(d, after, path, f) {
      assert d.MayKeep(path, Lookup(after.synced, path));
      FatesAreExact(d, path, Lookup(after.synced, path));
      var f: Fate :| f.Fits(d.buffered[path]) &&
        Cut(Lookup(d.synced, path), d.buffered[path], f.fate, f.tear) == Lookup(after.synced, path);
      assert Explains(d, after, path, f);
    }
    fates := map path | path in d.buffered :: var f: Fate :| Explains(d, after, path, f); f;
    forall path ensures Lookup(after.synced, path) == d.Kept(fates, path) {
      if path in d.buffered {
        assert Explains(d, after, path, fates[path]);
      } else {
        assert d.MayKeep(path, Lookup(after.synced, path));
      }
    }
    SameDisk(after, d.Struck(fates));
  }

  ghost predicate Explains(d: DiskState, after: DiskState, path: Path, f: Fate) {
    && path in d.buffered && f.Fits(d.buffered[path])
    && Cut(Lookup(d.synced, path), d.buffered[path], f.fate, f.tear) == Lookup(after.synced, path)
  }

  /** A recording of some fates makes the power cut draw them again. */
  lemma {:induction false} FatesReplay(
    buffered: map<Path, Option<Bytes>>, paths: seq<Path>, fates: map<Path, Fate>, recorded: seq<Draw>, rng: Rng)
    requires AllFit(buffered, paths, fates) && FateDraws(buffered, paths, fates) <= recorded
    ensures match DrawFates(buffered, paths, Replaying(recorded, Strict, rng))
            case Err(_) => false
            case Ok((t, drawn)) =>
              && t == Replaying(recorded, Strict, rng).(position := |t.draws|, draws := t.draws)
              && t.draws == FateDraws(buffered, paths, fates)
              && forall path | path in paths :: drawn[path] == fates[path]
    decreases |paths|
  {
    if paths != [] {
      var last := |paths| - 1;
      FatesReplay(buffered, paths[..last], fates, recorded, rng);
    }
  }

  /** The draws of the tape decide what a power cut leaves, and every disk that may be left is left for
      some recording, which the cut replays exactly. */
  lemma PowerCutsAreExact(d: DiskState, after: DiskState, rng: Rng)
    ensures d.MayBecome(after) <==> exists recorded :: LeftBy(d, recorded, rng, after)
  {
    var order := Sorted(d.buffered.Keys);
    SortedIsDistinct(d.buffered.Keys);
    if d.MayBecome(after) {
      var fates := SomeFates(d, after);
      var recorded := FateDraws(d.buffered, order, fates);
      FatesReplay(d.buffered, order, fates, recorded, rng);
      var drawn := DrawFates(d.buffered, order, Replaying(recorded, Strict, rng)).value.1;
      assert drawn == fates;
      assert LeftBy(d, recorded, rng, after);
    }
    forall recorded | LeftBy(d, recorded, rng, after) ensures d.MayBecome(after) {
      FatesAreDrawn(d.buffered, order, Replaying(recorded, Strict, rng));
      StruckMayBecome(d, order, DrawFates(d.buffered, order, Replaying(recorded, Strict, rng)).value.1);
    }
  }

  ghost predicate LeftBy(d: DiskState, recorded: seq<Draw>, rng: Rng, after: DiskState) {
    match DrawFates(d.buffered, Sorted(d.buffered.Keys), Replaying(recorded, Strict, rng))
    case Err(_) => false
    case Ok((t, fates)) => t.ReplayExact() && after == d.Struck(fates)
  }

  /** The answer 0 everywhere is the worst case, `drop_unsynced`, and the highest answer everywhere is
      as good as an fsync before the cut. */
  lemma ExtremeFates(d: DiskState, fates: map<Path, Fate>)
    requires fates.Keys == d.buffered.Keys
    ensures (forall path | path in fates :: fates[path].fate == 0) ==> d.Struck(fates) == d.DropUnsynced()
    ensures (forall path | path in fates :: fates[path].fate == if d.buffered[path].None? then 1 else 2) ==>
      d.Struck(fates) == d.FsyncAll()
  {
    if forall path | path in fates :: fates[path].fate == 0 {
      SameDisk(d.Struck(fates), d.DropUnsynced());
    }
    if forall path | path in fates :: fates[path].fate == if d.buffered[path].None? then 1 else 2 {
      forall path ensures d.Kept(fates, path) == d.Visible(path) {
      }
      SameDisk(d.Struck(fates), d.FsyncAll());
    }
  }

  lemma {:induction false} ZeroFates(buffered: map<Path, Option<Bytes>>, paths: seq<Path>)
    requires forall path | path in paths :: path in buffered
    ensures match DrawFates(buffered, paths, Generating(Zero))
            case Err(_) => false
            case Ok((t, fates)) =>
              && t.recorded.None? && t.rng == Zero && forall path | path in paths :: fates[path].fate == 0
    decreases |paths|
  {
    if paths != [] {
      ZeroFates(buffered, paths[..|paths| - 1]);
    }
  }

  /** So a power cut on the zero tape loses the whole cache and nothing else. */
  lemma ZeroTapeLosesTheCache(d: DiskState)
    ensures match DrawFates(d.buffered, Sorted(d.buffered.Keys), Generating(Zero))
            case Err(_) => false
            case Ok((_, fates)) => d.Struck(fates) == d.DropUnsynced()
  {
    var order := Sorted(d.buffered.Keys);
    ZeroFates(d.buffered, order);
    var fates := DrawFates(d.buffered, order, Generating(Zero)).value.1;
    assert fates.Keys == d.buffered.Keys;
    ExtremeFates(d, fates);
  }

  lemma SortedIsDistinct(paths: set<Path>)
    ensures var order := Sorted(paths); forall i, j | 0 <= i < j < |order| :: order[i] != order[j]
  {
    var order := Sorted(paths);
    SortedAscends(paths);
    forall i, j | 0 <= i < j < |order| ensures order[i] != order[j] {
      assert Before(order[i], order[j]);
      BeforeIsTotal(order[i], order[j]);
    }
  }

  lemma {:induction false} ErrorStays(buffered: map<Path, Option<Bytes>>, order: seq<Path>, n: nat, tape: TapeState)
    requires (forall path | path in order :: path in buffered) && n <= |order|
    requires DrawFates(buffered, order[..n], tape).Err?
    ensures DrawFates(buffered, order, tape) == DrawFates(buffered, order[..n], tape)
    decreases |order|
  {
    if n == |order| {
      assert order[..n] == order;
    } else {
      assert order[..|order| - 1][..n] == order[..n];
      ErrorStays(buffered, order[..|order| - 1], n, tape);
    }
  }

  /** A power cut of `d` has gone through these paths: the disk holds what their fates say. */
  ghost predicate Underway(
    d: DiskState, paths: seq<Path>, from: TapeState, synced: map<Path, Bytes>, now: TapeState)
  {
    && (forall path | path in paths :: path in d.buffered)
    && match DrawFates(d.buffered, paths, from)
       case Err(_) => false
       case Ok((t, fates)) => now == t && forall path :: Lookup(synced, path) == d.Kept(fates, path)
  }

  lemma NextPath(
    d: DiskState, paths: seq<Path>, path: Path, from: TapeState, synced: map<Path, Bytes>, now: TapeState,
    synced': map<Path, Bytes>, now': TapeState)
    requires path in d.buffered && path !in paths
    requires Underway(d, paths, from, synced, now)
    requires forall other | other != path :: Lookup(synced', other) == Lookup(synced, other)
    requires match DrawFate(d.buffered[path], now)
             case Err(_) => true
             case Ok((t, fate)) =>
               && now' == t
               && Lookup(synced', path) == Cut(Lookup(synced, path), d.buffered[path], fate.fate, fate.tear)
    ensures match DrawFate(d.buffered[path], now)
            case Err(e) => DrawFates(d.buffered, paths + [path], from) == Err(e)
            case Ok(_) => Underway(d, paths + [path], from, synced', now')
  {
    var longer := paths + [path];
    assert longer[..|longer| - 1] == paths && longer[|longer| - 1] == path;
    var (_, fates) := DrawFates(d.buffered, paths, from).value;
    assert path !in fates;
    if DrawFate(d.buffered[path], now).Ok? {
      var fates' := DrawFates(d.buffered, longer, from).value.1;
      forall other ensures Lookup(synced', other) == d.Kept(fates', other) {
        assert Lookup(synced, other) == d.Kept(fates, other);
      }
    }
  }

  lemma FreshPath(paths: set<Path>, i: nat)
    requires i < |Sorted(paths)|
    ensures
      var order := Sorted(paths);
      order[i] !in order[..i] && order[..i + 1] == order[..i] + [order[i]]
  {
    SortedIsDistinct(paths);
  }

  lemma SameDisk(a: DiskState, b: DiskState)
    requires a.buffered == b.buffered && forall path :: Lookup(a.synced, path) == Lookup(b.synced, path)
    ensures a == b
  {
    forall path ensures path in a.synced <==> path in b.synced {
      assert Lookup(a.synced, path) == Lookup(b.synced, path);
    }
    forall path | path in a.synced ensures a.synced[path] == b.synced[path] {
      assert Lookup(a.synced, path) == Lookup(b.synced, path);
    }
  }

  lemma CutGoesOn(
    d: DiskState, i: nat, from: TapeState, synced: map<Path, Bytes>, now: TapeState,
    synced': map<Path, Bytes>, now': TapeState)
    requires i < |Sorted(d.buffered.Keys)|
    requires Underway(d, Sorted(d.buffered.Keys)[..i], from, synced, now)
    requires
      var path := Sorted(d.buffered.Keys)[i];
      && (forall other | other != path :: Lookup(synced', other) == Lookup(synced, other))
      && match DrawFate(d.buffered[path], now)
         case Err(_) => true
         case Ok((t, fate)) =>
           && now' == t
           && Lookup(synced', path) == Cut(Lookup(synced, path), d.buffered[path], fate.fate, fate.tear)
    ensures
      var order := Sorted(d.buffered.Keys);
      match DrawFate(d.buffered[order[i]], now)
      case Err(e) => DrawFates(d.buffered, order, from) == Err(e)
      case Ok(_) => Underway(d, order[..i + 1], from, synced', now')
  {
    var order := Sorted(d.buffered.Keys);
    FreshPath(d.buffered.Keys, i);
    NextPath(d, order[..i], order[i], from, synced, now, synced', now');
    if DrawFate(d.buffered[order[i]], now).Err? {
      ErrorStays(d.buffered, order, i + 1, from);
    }
  }

  lemma WentThrough(d: DiskState, order: seq<Path>, from: TapeState, synced: map<Path, Bytes>, now: TapeState)
    requires Underway(d, order, from, synced, now)
    requires order == Sorted(d.buffered.Keys)
    ensures match DrawFates(d.buffered, order, from)
            case Err(_) => false
            case Ok((t, fates)) => now == t && DiskState(synced, map[]) == d.Struck(fates)
    ensures d.MayBecome(DiskState(synced, map[]))
  {
    SortedIsDistinct(d.buffered.Keys);
    FatesAreDrawn(d.buffered, order, from);
    StruckMayBecome(d, order, DrawFates(d.buffered, order, from).value.1);
    SameDisk(DiskState(synced, map[]), d.Struck(DrawFates(d.buffered, order, from).value.1));
  }

  class SimDisk {
    var synced: map<Path, Bytes>
    var buffered: map<Path, Option<Bytes>>

    function State(): DiskState
      reads this
    {
      DiskState(synced, buffered)
    }

    constructor ()
      ensures State() == DiskState(map[], map[])
    {
      synced, buffered := map[], map[];
    }

    method Write(path: Path, data: Bytes)
      modifies this
      ensures State() == old(State()).Write(path, data)
    {
      buffered := buffered[path := Some(data)];
    }

    method Read(path: Path) returns (r: Result<Bytes, DiskError>)
      ensures r == match State().Visible(path) case Some(data) => Ok(data) case None => Err(FileNotFound(path))
    {
      if path in buffered {
        if buffered[path].None? {
          return Err(FileNotFound(path));
        }
        return Ok(buffered[path].value);
      }
      if path in synced {
        return Ok(synced[path]);
      }
      return Err(FileNotFound(path));
    }

    method Exists(path: Path) returns (r: bool)
      ensures r <==> State().Visible(path).Some?
    {
      if path in buffered {
        return buffered[path].Some?;
      }
      return path in synced;
    }

    method Delete(path: Path) returns (r: Result<(), DiskError>)
      modifies this
      ensures State() == old(State()).Delete(path)
      ensures r == if old(State()).Visible(path).Some? then Ok(()) else Err(FileNotFound(path))
    {
      var present := Exists(path);
      if !present {
        return Err(FileNotFound(path));
      }
      buffered := buffered[path := None];
      return Ok(());
    }

    method CommitOne(path: Path, data: Option<Bytes>)
      modifies this`synced
      ensures synced == Commit(old(synced), path, data)
    {
      match data {
        case None => synced := synced - {path};
        case Some(bytes) => synced := synced[path := bytes];
      }
    }

    method Fsync(path: Path)
      modifies this
      ensures State() == old(State()).Fsync(path)
    {
      if path in buffered {
        var data := buffered[path];
        buffered := buffered - {path};
        CommitOne(path, data);
      }
    }

    /** `fsync()` without a path: commits the buffered entries one by one. */
    method FsyncAll()
      modifies this
      ensures buffered == map[]
      ensures forall path :: Lookup(synced, path) == old(State()).Visible(path)
    {
      var rest := buffered.Keys;
      while rest != {}
        invariant rest <= buffered.Keys && buffered == old(buffered)
        invariant forall path :: (Lookup(synced, path) ==
          if path in rest then Lookup(old(synced), path) else old(State()).Visible(path))
        decreases rest
      {
        var path :| path in rest;
        CommitOne(path, buffered[path]);
        rest := rest - {path};
      }
      buffered := map[];
    }

    /** A power cut in the worst case. */
    method DropUnsynced()
      modifies this`buffered
      ensures State() == old(State()).DropUnsynced()
    {
      buffered := map[];
    }

    method Sort(paths: set<Path>) returns (order: seq<Path>)
      ensures order == Sorted(paths)
    {
      order := [];
      var rest := paths;
      while rest != {}
        invariant order + Sorted(rest) == Sorted(paths)
        decreases rest
      {
        LeastExists(rest);
        var path :| IsLeast(path, rest);
        SortedStep(order, rest, path);
        order, rest := order + [path], rest - {path};
      }
    }

    /** `files()`. */
    method Files() returns (files: seq<Path>)
      ensures Ascending(files)
      ensures forall path :: path in files <==> State().Visible(path).Some?
    {
      var visible := synced.Keys;
      var rest := buffered.Keys;
      while rest != {}
        invariant rest <= buffered.Keys
        invariant forall path :: (path in visible <==>
          if path in rest then path in synced else State().Visible(path).Some?)
        decreases rest
      {
        var path :| path in rest;
        if buffered[path].None? {
          visible := visible - {path};
        } else {
          visible := visible + {path};
        }
        rest := rest - {path};
      }
      files := Sort(visible);
      SortedAscends(visible);
    }

    /** The fate of one buffered path, drawn from the tape: lost, torn, or flushed. */
    method CutPath(path: Path, tape: Tape) returns (r: Result<(), DrawError>)
      requires path in buffered
      modifies this`synced, tape
      ensures forall other | other != path :: Lookup(synced, other) == Lookup(old(synced), other)
      ensures match DrawFate(buffered[path], old(tape.State()))
              case Err(e) => r == Err(e) && synced == old(synced)
              case Ok((t, fate)) =>
                && r == Ok(()) && tape.State() == t
                && Lookup(synced, path) == Cut(old(Lookup(synced, path)), buffered[path], fate.fate, fate.tear)
    {
      var data := buffered[path];
      if data.None? {
        var fate := tape.Draw("disk.fate", 2);
        if fate.Err? {
          return Err(fate.error);
        }
        if fate.value == 1 {
          synced := synced - {path};
        }
      } else {
        var bytes := data.value;
        var fate := tape.Draw("disk.fate", 3);
        if fate.Err? {
          return Err(fate.error);
        }
        if fate.value == 1 && |bytes| > 1 {
          var tear := tape.Draw("disk.tear", |bytes| - 1);
          if tear.Err? {
            return Err(tear.error);
          }
          var cut := 1 + tear.value;
          synced := synced[path := bytes[..cut]];
        } else if fate.value == 2 {
          synced := synced[path := bytes];
        }
      }
      return Ok(());
    }

    /** A power cut: the buffered paths in order, each with a fate of its own from the tape. */
    method PowerCut(tape: Tape) returns (r: Result<(), DrawError>)
      modifies this, tape
      ensures match DrawFates(old(buffered), Sorted(old(buffered).Keys), old(tape.State()))
              case Err(e) => r == Err(e) && buffered == old(buffered)
              case Ok((t, fates)) => r == Ok(()) && tape.State() == t && State() == old(State()).Struck(fates)
      ensures r.Ok? ==> old(State()).MayBecome(State())
    {
      var order := Sort(buffered.Keys);
      ghost var d, from := State(), tape.State();
      var i := 0;
      while i < |order|
        invariant i <= |order| && order == Sorted(buffered.Keys) && buffered == old(buffered)
        invariant Underway(d, order[..i], from, synced, tape.State())
      {
        ghost var synced0, now := synced, tape.State();
        r := CutPath(order[i], tape);
        CutGoesOn(d, i, from, synced0, now, synced, tape.State());
        if r.Err? {
          return;
        }
        i := i + 1;
      }
      assert order[..i] == order;
      WentThrough(d, order, from, synced, tape.State());
      buffered := map[];
      r := Ok(());
    }
  }

  // ---------------------------------------------------------------------------------------------
  // Any history of operations
  // ---------------------------------------------------------------------------------------------

  datatype DiskOp =
    | WriteOp(path: Path, data: Bytes)
    | DeleteOp(path: Path)
    | FsyncOp(path: Path)
    | FsyncAllOp

  function Run(start: DiskState, history: seq<DiskOp>): DiskState {
    if history == [] then start else
    Apply(Run(start, history[..|history| - 1]), history[|history| - 1])
  }

  /** The reference: a plain map, in which fsync means nothing. */
  function Plain(start: map<Path, Bytes>, history: seq<DiskOp>): map<Path, Bytes> {
    if history == [] then start else
    ApplyPlain(Plain(start, history[..|history| - 1]), history[|history| - 1])
  }

  predicate Syncs(op: DiskOp, path: Path) {
    op.FsyncAllOp? || (op.FsyncOp? && op.path == path)
  }

  /** How much of the history the last fsync of `path` covers; 0 if there was none. */
  function SyncedUpTo(history: seq<DiskOp>, path: Path): (n: nat)
    ensures n <= |history|
  {
    if history == [] then 0
    else if Syncs(history[|history| - 1], path) then |history|
    else SyncedUpTo(history[..|history| - 1], path)
  }

  /** The operation is a write of `path`, or a delete of it while it exists. */
  predicate Changes(files: map<Path, Bytes>, op: DiskOp, path: Path) {
    (op.WriteOp? && op.path == path) || (op.DeleteOp? && op.path == path && path in files)
  }

  /** Nothing after the last fsync of `path` changed it. */
  predicate Clean(start: map<Path, Bytes>, history: seq<DiskOp>, path: Path) {
    if history == [] then true else
    var last := |history| - 1;
    || Syncs(history[last], path)
    || (Clean(start, history[..last], path) && !Changes(Plain(start, history[..last]), history[last], path))
  }

  function Apply(d: DiskState, op: DiskOp): DiskState {
    match op
    case WriteOp(path, data) => d.Write(path, data)
    case DeleteOp(path) => d.Delete(path)
    case FsyncOp(path) => d.Fsync(path)
    case FsyncAllOp => d.FsyncAll()
  }

  function ApplyPlain(files: map<Path, Bytes>, op: DiskOp): map<Path, Bytes> {
    match op
    case WriteOp(path, data) => files[path := data]
    case DeleteOp(path) => files - {path}
    case _ => files
  }

  /** One operation on the disk, seen from one path. */
  lemma OpRefines(d: DiskState, files: map<Path, Bytes>, op: DiskOp, path: Path)
    requires d.Visible(path) == Lookup(files, path)
    ensures
      var d' := Apply(d, op);
      var files' := ApplyPlain(files, op);
      && d'.Visible(path) == Lookup(files', path)
      && (Syncs(op, path) ==> Lookup(d'.synced, path) == Lookup(files', path) && path !in d'.buffered)
      && (!Syncs(op, path) ==> Lookup(d'.synced, path) == Lookup(d.synced, path)
                               && (path in d'.buffered <==> path in d.buffered || Changes(files, op, path)))
  {
  }

  /** The disk refines a plain map; what is synced is the plain map as of the last fsync of each
      path, and exactly the paths changed since are in the buffer cache. */
  lemma {:induction false} DiskRefinesMap(files: map<Path, Bytes>, history: seq<DiskOp>, path: Path)
    ensures
      var d := Run(DiskState(files, map[]), history);
      && d.Visible(path) == Lookup(Plain(files, history), path)
      && Lookup(d.synced, path) == Lookup(Plain(files, history[..SyncedUpTo(history, path)]), path)
      && (path in d.buffered <==> !Clean(files, history, path))
    decreases |history|
  {
    if history == [] {
    } else {
      var last := |history| - 1;
      var before := history[..last];
      DiskRefinesMap(files, before, path);
      OpRefines(Run(DiskState(files, map[]), before), Plain(files, before), history[last], path);
      assert history[..|history|] == history;
      assert before[..SyncedUpTo(before, path)] == history[..SyncedUpTo(before, path)];
    }
  }

  /** Crash durability: after any history and a power cut, a path holds its contents as of its last
      fsync, its latest contents, or a proper nonempty prefix of the latest write. A path not changed
      since its last fsync is kept as it is. */
  lemma CrashDurability(files: map<Path, Bytes>, history: seq<DiskOp>, after: DiskState, path: Path)
    requires Run(DiskState(files, map[]), history).MayBecome(after)
    ensures
      var latest := Lookup(Plain(files, history), path);
      var durable := Lookup(Plain(files, history[..SyncedUpTo(history, path)]), path);
      var kept := after.Visible(path);
      && (kept == durable || kept == latest || (latest.Some? && Torn(latest.value, kept)))
      && (Clean(files, history, path) ==> kept == durable == latest)
  {
    DiskRefinesMap(files, history, path);
    assert Run(DiskState(files, map[]), history).MayKeep(path, Lookup(after.synced, path));
  }
}

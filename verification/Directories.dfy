/** The directory table of a bucket. A row is keyed by the path of its parent and its name, two strings that
    come from splitting the requested path; the root has no row. */
module Directories {
  import opened Common
  import opened Paths

  type Row = (string, string)

  /** The row a path is looked up by. */
  function KeyOf(path: string): Row {
    (SplitPath(path).0.GetOr(""), SplitPath(path).1)
  }

  function FullPath(r: Row): string {
    JoinParentName(r.0, r.1)
  }

  /** The path of the parent; `None` is the root. */
  function Up(path: string): Option<string> {
    SplitPath(path).0
  }

  predicate Exists(dirs: map<Row, Uuid>, path: Option<string>) {
    path.Some? ==> KeyOf(path.value) in dirs
  }

  lemma UpIsShorter(path: string)
    requires Up(path).Some?
    ensures Up(path).value != [] && |Segments(Up(path).value)| < |Segments(path)|
  {
    hide Segments, Join;
    var names := TrimDots(Segments(path));
    var parent := TrimDots(names[..|names| - 1]);
    SegmentsOfJoin(parent);
    JoinIsNotEmpty(parent);
  }

  /** The rows of a path and of everything above it. */
  ghost function Lineage(path: string): seq<Row>
    decreases |Segments(path)|
  {
    if Up(path).None? then [KeyOf(path)]
    else UpIsShorter(path); [KeyOf(path)] + Lineage(Up(path).value)
  }

  ghost function LineageFrom(path: Option<string>): seq<Row> {
    if path.None? then [] else Lineage(path.value)
  }

  lemma LineageStep(path: string)
    ensures Lineage(path) == [KeyOf(path)] + LineageFrom(Up(path))
  {
  }

  /** Names have no slash in them. */
  predicate ValidRow(r: Row) {
    '/' !in r.1
  }

  ghost predicate Rows(dirs: map<Row, Uuid>) {
    forall r :: r in dirs ==> ValidRow(r)
  }

  /** Looking up the parent of a row finds a row. */
  ghost predicate Linked(dirs: map<Row, Uuid>) {
    forall r :: r in dirs && r.0 != [] ==> KeyOf(r.0) in dirs
  }

  predicate IsDot(name: string) {
    name == "." || name == ".."
  }

  ghost predicate DotFree(names: seq<string>) {
    forall i :: 0 <= i < |names| ==> !IsDot(names[i])
  }

  /** A row whose full path is a normal path without dot components. */
  ghost predicate ProperRow(r: Row) {
    Normalize(r.0) == r.0 && DotFree(Segments(r.0)) && IsName(r.1) && !IsDot(r.1)
  }

  /** Every row is proper and has its parent. */
  ghost predicate Tree(dirs: map<Row, Uuid>) {
    Linked(dirs) && forall r :: r in dirs ==> ProperRow(r)
  }

  class DirectoryTable {
    var dirs: map<Row, Uuid>

    constructor ()
      ensures dirs == map[] && Tree(dirs) && Rows(dirs)
    {
      dirs := map[];
    }

    /** Makes the directory and the missing ones above it. `ids` are the identifiers new rows get. */
    method TryMkdir(path: string, ids: Row -> Uuid) returns (r: Option<(Row, Uuid)>)
      modifies this
      // the answer is the row the path is looked up by
      ensures path == [] ==> r == None && dirs == old(dirs)
      ensures path != [] ==> KeyOf(path) in dirs && r == Some((KeyOf(path), dirs[KeyOf(path)]))
      // nothing existing changes, and only rows of the path's lineage are added
      ensures forall k :: k in old(dirs) ==> k in dirs && dirs[k] == old(dirs)[k]
      ensures forall k :: k in dirs && k !in old(dirs) ==> k in Lineage(path) && dirs[k] == ids(k)
      ensures KeyOf(path) in old(dirs) ==> dirs == old(dirs)
      // the table keeps its form, a tree exactly when the new row is proper
      ensures Rows(old(dirs)) ==> Rows(dirs)
      ensures Linked(old(dirs)) ==> Linked(dirs)
      ensures Tree(old(dirs)) && path != [] ==> (Tree(dirs) <==> KeyOf(path) in old(dirs) || ProperRow(KeyOf(path)))
      // the root gets a row exactly when the path begins with a dot component
      ensures Linked(old(dirs)) && ROOT !in old(dirs) && path != [] ==> (ROOT in dirs <==> BeginsWithDot(path))
    {
      hide Segments, Join, SplitPath, Normalize, Lineage, ProperRow, BeginsWithDot, Linked;
      if path == [] { return None; }
      if Exists(dirs, Some(path)) {
        if Linked(dirs) { MkdirMakesRootIff(dirs, dirs, path); }
        return Some((KeyOf(path), dirs[KeyOf(path)]));
      }
      var chain := MissingAncestors(path);
      CreateAll(chain[1..] + [chain[0]], ids);
      ChainIsCreated(chain, dirs, old(dirs));
      ClimbIsLinked(old(dirs), dirs, chain);
      ClimbIsValid(old(dirs), dirs, path, chain);
      if ProperRow(KeyOf(path)) { ClimbIsProper(chain); }
      if Linked(old(dirs)) { MkdirMakesRootIff(old(dirs), dirs, path); }
      return Some((KeyOf(path), dirs[KeyOf(path)]));
    }

    /** Climbs from `path` to the nearest ancestor that exists: the rows to create, the path's own first. */
    method MissingAncestors(path: string) returns (chain: seq<Row>)
      requires KeyOf(path) !in dirs
      ensures chain != [] && chain[0] == KeyOf(path) && Climb(chain) && Lands(dirs, chain)
      ensures forall i :: 0 <= i < |chain| ==> chain[i] !in dirs && chain[i] in Lineage(path)
    {
      hide Segments, Join, SplitPath, Lineage;
      chain := [KeyOf(path)];
      var current := Up(path);
      LineageStep(path);
      if current.Some? { UpIsShorter(path); }
      while !Exists(dirs, current)
        invariant chain != [] && chain[0] == KeyOf(path) && Climb(chain)
        invariant chain[|chain| - 1].0 == current.GetOr("") && (current.Some? ==> current.value != [])
        invariant forall i :: 0 <= i < |chain| ==> chain[i] !in dirs && chain[i] in Lineage(path)
        invariant forall k :: k in LineageFrom(current) ==> k in Lineage(path)
        decreases if current.Some? then |Segments(current.value)| + 1 else 0
      {
        LineageStep(current.value);
        if Up(current.value).Some? { UpIsShorter(current.value); }
        chain := chain + [KeyOf(current.value)];
        current := Up(current.value);
      }
    }

    /** Inserts the rows in order. */
    method CreateAll(missing: seq<Row>, ids: Row -> Uuid)
      requires forall i :: 0 <= i < |missing| ==> missing[i] !in dirs
      modifies this
      ensures forall k :: k in old(dirs) ==> k in dirs && dirs[k] == old(dirs)[k]
      ensures forall i :: 0 <= i < |missing| ==> missing[i] in dirs
      ensures forall k :: k in dirs && k !in old(dirs) ==> k in missing && dirs[k] == ids(k)
    {
      var i := 0;
      while i < |missing|
        invariant 0 <= i <= |missing|
        invariant forall k :: k in old(dirs) ==> k in dirs && dirs[k] == old(dirs)[k]
        invariant forall k :: 0 <= k < i ==> missing[k] in dirs
        invariant forall k :: k in dirs && k !in old(dirs) ==> k in missing && dirs[k] == ids(k)
      {
        dirs := dirs[missing[i] := ids(missing[i])];
        i := i + 1;
      }
    }

    /** Lists everything below `start`, breadth first, `order` being how the database lists children. */
    method Descendants(start: Row, order: string -> seq<Row>) returns (out: seq<Row>)
      requires Rows(dirs) && ValidRow(start) && Listing(dirs, order) && FullPath(start) != []
      ensures NoDuplicates(out) && ByDepth(out)
      ensures forall q :: q in out <==> Below(dirs, start, q)
    {
      hide Sound, Listing, FullPath, Rows, ValidRow, Elements, Below, ByDepth, NoDuplicates;
      var queue: seq<Row> := [start];
      var stream: Option<seq<Row>> := None;
      out := [];
      ghost var visited: set<Row>, level: nat := {}, Slashes(FullPath(start));
      SoundStarts(dirs, start);
      while stream.Some? || queue != []
        invariant Sound(dirs, start, Walk(queue, stream, out), visited, level)
        decreases dirs.Keys - Elements(out), |queue|, stream.Some?
      {
        if stream.Some? {
          if stream.value == [] {
            SoundCloses(dirs, start, order, Walk(queue, stream, out), visited, level);
            stream := None;
          } else {
            SoundYields(dirs, start, order, Walk(queue, stream, out), visited, level);
            var dir := stream.value[0];
            stream := Some(stream.value[1..]);
            queue := queue + [dir];
            out := out + [dir];
          }
        } else {
          SoundOpens(dirs, start, order, Walk(queue, stream, out), visited, level);
          var next := queue[0];
          visited, level := visited + {next}, Slashes(FullPath(next));
          queue := queue[1..];
          stream := Some(order(FullPath(next)));
        }
      }
      SoundEnds(dirs, start, Walk(queue, stream, out), visited, level);
    }
  }

  // ---- the climb

  /** Each row is the one its predecessor's parent is looked up by. */
  ghost predicate Climb(chain: seq<Row>) {
    forall i :: 0 <= i < |chain| - 1 ==> chain[i].0 != [] && KeyOf(chain[i].0) == chain[i + 1]
  }

  /** The last row is at the top or has its parent. */
  ghost predicate Lands(dirs: map<Row, Uuid>, chain: seq<Row>)
    requires chain != []
  {
    chain[|chain| - 1].0 != [] ==> KeyOf(chain[|chain| - 1].0) in dirs
  }

  /** `after` is `before` and the rows of the chain. */
  ghost predicate Extends(before: map<Row, Uuid>, after: map<Row, Uuid>, chain: seq<Row>) {
    && (forall k :: k in before ==> k in after)
    && (forall i :: 0 <= i < |chain| ==> chain[i] in after)
    && (forall k :: k in after && k !in before ==> k in chain)
  }

  lemma ChainIsCreated(chain: seq<Row>, after: map<Row, Uuid>, before: map<Row, Uuid>)
    requires chain != []
    requires forall k :: k in before ==> k in after
    requires var order := chain[1..] + [chain[0]];
             && (forall i :: 0 <= i < |order| ==> order[i] in after)
             && (forall k :: k in after && k !in before ==> k in order)
    ensures Extends(before, after, chain)
  {
    var order := chain[1..] + [chain[0]];
    forall i | 0 <= i < |chain| ensures chain[i] in after {
      assert chain[i] == if i == 0 then order[|order| - 1] else order[i - 1];
    }
  }

  lemma ClimbIsLinked(before: map<Row, Uuid>, after: map<Row, Uuid>, chain: seq<Row>)
    requires chain != [] && Climb(chain) && Lands(before, chain) && Extends(before, after, chain)
    ensures Linked(before) ==> Linked(after)
  {
    hide KeyOf;
    if Linked(before) {
      forall r | r in after && r.0 != [] ensures KeyOf(r.0) in after {
        if r !in before {
          var i :| 0 <= i < |chain| && chain[i] == r;
          if i + 1 < |chain| { assert chain[i + 1] in after; }
        }
      }
    }
  }

  lemma KeyIsValid(path: string)
    ensures ValidRow(KeyOf(path))
  {
    hide Segments, Join;
    var names := TrimDots(Segments(path));
    if names != [] {
      assert names[|names| - 1] == Segments(path)[|names| - 1];
      assert IsName(names[|names| - 1]);
    }
  }

  lemma ClimbIsValid(before: map<Row, Uuid>, after: map<Row, Uuid>, path: string, chain: seq<Row>)
    requires chain != [] && chain[0] == KeyOf(path) && Climb(chain) && Extends(before, after, chain)
    ensures Rows(before) ==> Rows(after)
  {
    hide KeyOf, ValidRow;
    forall i | 0 <= i < |chain| ensures ValidRow(chain[i]) {
      if i == 0 { KeyIsValid(path); } else { KeyIsValid(chain[i - 1].0); }
    }
  }

  lemma TrimDotsOfDotFree(names: seq<string>)
    requires DotFree(names)
    ensures TrimDots(names) == names
  {
  }

  /** In a path without dots the key is made of the names before the last, and the last. */
  lemma KeyOfDotFree(path: string)
    requires Segments(path) != [] && DotFree(Segments(path))
    ensures var names := Segments(path); KeyOf(path) == (Join(names[..|names| - 1]), names[|names| - 1])
  {
    hide Segments, Join;
    var names := Segments(path);
    TrimDotsOfDotFree(names);
    TrimDotsOfDotFree(names[..|names| - 1]);
    JoinNone();
  }

  lemma ProperJoin(names: seq<string>)
    requires AreNames(names) && DotFree(names)
    ensures Normalize(Join(names)) == Join(names) && Segments(Join(names)) == names
  {
    hide Segments, Join, Normalize;
    SegmentsOfJoin(names);
    NormalizeSplitsAndJoins(Join(names));
  }

  lemma DotFreeKeyIsProper(path: string)
    requires Segments(path) != [] && DotFree(Segments(path))
    ensures ProperRow(KeyOf(path))
  {
    hide Segments, Join, Normalize, KeyOf;
    var names := Segments(path);
    KeyOfDotFree(path);
    ProperJoin(names[..|names| - 1]);
  }

  lemma ParentIsProper(r: Row)
    requires ProperRow(r) && r.0 != []
    ensures ProperRow(KeyOf(r.0))
  {
    hide Segments, Join, Normalize, KeyOf;
    NormalizeSplitsAndJoins(r.0);
    if Segments(r.0) == [] { JoinNone(); }
    DotFreeKeyIsProper(r.0);
  }

  lemma ClimbIsProper(chain: seq<Row>)
    requires chain != [] && Climb(chain) && ProperRow(chain[0])
    ensures forall i :: 0 <= i < |chain| ==> ProperRow(chain[i])
  {
    hide ProperRow, KeyOf;
    for i := 1 to |chain|
      invariant forall j :: 0 <= j < i ==> ProperRow(chain[j])
    {
      ParentIsProper(chain[i - 1]);
    }
  }

  // ---- when the answer is what was asked for

  /** The row found for a normal path is proper and its full path is that path exactly when no component of the
      path is a dot. */
  lemma RowOfPathIff(path: string)
    ensures ProperRow(KeyOf(path)) && FullPath(KeyOf(path)) == Normalize(path)
       <==> Segments(path) != [] && DotFree(Segments(path))
  {
    hide Segments, Join, Normalize, SplitPath;
    SplitThenJoinIff(path);
    var names := Segments(path);
    if names != [] && DotFree(names) {
      DotFreeKeyIsProper(path);
    } else if names != [] && Plain(names) {
      PlainKey(path);
      var init := names[..|names| - 1];
      SegmentsOfJoin(init);
      assert forall i :: 0 <= i < |names| - 1 ==> names[i] == init[i];
    } else if names == [] {
      KeyOfNothing(path);
    }
  }

  lemma PlainKey(path: string)
    requires Segments(path) != [] && Plain(Segments(path))
    ensures var names := Segments(path); KeyOf(path) == (Join(names[..|names| - 1]), names[|names| - 1])
  {
    hide Segments, Join;
    JoinNone();
  }

  lemma KeyOfNothing(path: string)
    requires Segments(path) == []
    ensures KeyOf(path) == ([], [])
  {
  }

  // ---- the breadth-first iterator

  ghost function Children(dirs: map<Row, Uuid>, path: string): set<Row> {
    set r | r in dirs && r.0 == path
  }

  /** How the database lists the rows with a given parent: each once, in some order. */
  ghost predicate Listing(dirs: map<Row, Uuid>, order: string -> seq<Row>) {
    forall path :: Lists(order(path), Children(dirs, path))
  }

  datatype Walk = Walk(queue: seq<Row>, stream: Option<seq<Row>>, out: seq<Row>)

  predicate Done(w: Walk) {
    w.stream.None? && w.queue == []
  }

  /** One turn of the iterator's loop: the next row of the open listing, its end, or the next directory. */
  function Advance(order: string -> seq<Row>, w: Walk): Walk {
    match w.stream
    case Some(rows) =>
      if rows == [] then w.(stream := None)
      else Walk(w.queue + [rows[0]], Some(rows[1..]), w.out + [rows[0]])
    case None =>
      if w.queue == [] then w
      else Walk(w.queue[1..], Some(order(FullPath(w.queue[0]))), w.out)
  }

  function Turns(order: string -> seq<Row>, w: Walk, n: nat): Walk
    decreases n
  {
    if n == 0 then w else Turns(order, Advance(order, w), n - 1)
  }

  /** `q` is a child of `start`, or of a row below it. */
  ghost predicate Below(dirs: map<Row, Uuid>, start: Row, q: Row)
    decreases |q.0|
  {
    q in dirs &&
    (q.0 == FullPath(start) || exists r :: r in dirs && FullPath(r) == q.0 && |r.0| < |q.0| && Below(dirs, start, r))
  }

  /** Rows with the same full path are the same row. */
  lemma FullPathIsInjective(r: Row, q: Row)
    requires ValidRow(r) && ValidRow(q) && FullPath(r) == FullPath(q)
    ensures r == q
  {
    var f, g := FullPath(r), FullPath(q);
    if r.0 != [] && q.0 != [] {
      assert f[|r.0|] == '/' && g[|q.0|] == '/';
      assert forall i :: |r.0| < i < |f| ==> f[i] == r.1[i - |r.0| - 1];
      assert forall i :: |q.0| < i < |g| ==> g[i] == q.1[i - |q.0| - 1];
      assert |r.0| == |q.0|;
      assert r.0 == f[..|r.0|] && q.0 == g[..|q.0|];
      assert r.1 == f[|r.0| + 1..] && q.1 == g[|q.0| + 1..];
    } else {
      SlashInPath(r);
      SlashInPath(q);
    }
  }

  lemma SlashInPath(r: Row)
    ensures r.0 != [] ==> '/' in FullPath(r)
  {
    if r.0 != [] { assert FullPath(r)[|r.0|] == '/'; }
  }

  /** A child's full path is its parent's, a slash, and its name. */
  lemma ChildIsLonger(r: Row, q: Row)
    requires q.0 == FullPath(r) != []
    ensures FullPath(q) == FullPath(r) + "/" + q.1 && |FullPath(q)| > |FullPath(r)| && |r.0| < |q.0|
  {
  }

  lemma {:induction false} BelowIsLonger(dirs: map<Row, Uuid>, start: Row, q: Row)
    requires FullPath(start) != [] && Below(dirs, start, q)
    ensures FullPath(start) + "/" <= FullPath(q)
    decreases |q.0|
  {
    if q.0 != FullPath(start) {
      var r :| r in dirs && FullPath(r) == q.0 && |r.0| < |q.0| && Below(dirs, start, r);
      BelowIsLonger(dirs, start, r);
      ChildIsLonger(r, q);
    }
  }

  ghost predicate ParentIn(rows: set<Row>, path: string) {
    exists r :: r in rows && FullPath(r) == path
  }

  /** `visited` are the directories taken off the queue, `open` what is left of the last one's children. */
  ghost predicate Walking(dirs: map<Row, Uuid>, start: Row, w: Walk, visited: set<Row>) {
    var open := w.stream.GetOr([]);
    && NoDuplicates(w.out) && NoDuplicates(w.queue) && NoDuplicates(open)
    && (forall q :: q in w.queue ==> q !in visited)
    && (forall q :: q in visited || q in w.queue <==> q == start || q in w.out)
    && (forall q :: q in w.out <==> q in dirs && ParentIn(visited, q.0) && q !in open)
    && (forall q :: q in open ==> q in dirs && ParentIn(visited, q.0))
    && (forall q :: q in w.out ==> Below(dirs, start, q))
  }

  lemma WalkStarts(dirs: map<Row, Uuid>, start: Row)
    ensures Walking(dirs, start, Walk([start], None, []), {})
  {
  }

  lemma OpenIsBelow(dirs: map<Row, Uuid>, start: Row, w: Walk, visited: set<Row>, q: Row)
    requires FullPath(start) != [] && Walking(dirs, start, w, visited) && q in w.stream.GetOr([])
    ensures Below(dirs, start, q) && q != start && q !in visited && q !in w.queue && q !in w.out
  {
    var r :| r in visited && FullPath(r) == q.0;
    if r != start {
      assert Below(dirs, start, r);
      BelowIsLonger(dirs, start, r);
      ChildIsLonger(r, q);
    }
    BelowIsLonger(dirs, start, q);
  }

  lemma WalkYields(dirs: map<Row, Uuid>, start: Row, order: string -> seq<Row>, w: Walk, visited: set<Row>)
    requires FullPath(start) != [] && Walking(dirs, start, w, visited) && w.stream.Some? && w.stream.value != []
    ensures Walking(dirs, start, Advance(order, w), visited)
    ensures Elements(Advance(order, w).out) == Elements(w.out) + {w.stream.value[0]}
    ensures w.stream.value[0] in dirs.Keys - Elements(w.out)
  {
    hide Below, ParentIn;
    var q := w.stream.value[0];
    OpenIsBelow(dirs, start, w, visited, q);
    assert w.stream.value == [q] + w.stream.value[1..];
  }

  lemma WalkOpens(dirs: map<Row, Uuid>, start: Row, order: string -> seq<Row>, w: Walk, visited: set<Row>)
    requires Rows(dirs) && ValidRow(start) && Listing(dirs, order)
    requires Walking(dirs, start, w, visited) && w.stream.None? && w.queue != []
    ensures Walking(dirs, start, Advance(order, w), visited + {w.queue[0]})
  {
    hide Below, ParentIn, FullPath, ValidRow;
    var next := w.queue[0];
    assert w.queue == [next] + w.queue[1..];
    assert Lists(order(FullPath(next)), Children(dirs, FullPath(next)));
    forall q | q in dirs ensures ParentIn(visited + {next}, q.0) <==> ParentIn(visited, q.0) || q.0 == FullPath(next) {
      ParentInMore(visited, next, q.0);
    }
    forall q | q in dirs && q.0 == FullPath(next) ensures !ParentIn(visited, q.0) {
      assert forall r :: r in visited ==> r == start || r in w.out;
      NotYetListed(visited, next);
    }
  }

  lemma ParentInMore(rows: set<Row>, next: Row, path: string)
    ensures ParentIn(rows + {next}, path) <==> ParentIn(rows, path) || path == FullPath(next)
  {
    hide FullPath;
    if path == FullPath(next) { assert next in rows + {next}; }
  }

  lemma NotYetListed(visited: set<Row>, next: Row)
    requires next !in visited && ValidRow(next) && forall r :: r in visited ==> ValidRow(r)
    ensures !ParentIn(visited, FullPath(next))
  {
    hide FullPath;
    forall r | r in visited ensures FullPath(r) != FullPath(next) {
      if FullPath(r) == FullPath(next) { FullPathIsInjective(r, next); }
    }
  }

  ghost function Elements(s: seq<Row>): set<Row> {
    set r | r in s
  }

  lemma {:induction false} WalkMeets(dirs: map<Row, Uuid>, start: Row, w: Walk, visited: set<Row>, q: Row)
    requires Walking(dirs, start, w, visited) && Done(w) && Below(dirs, start, q)
    ensures q in w.out
    decreases |q.0|
  {
    if q.0 == FullPath(start) {
      assert start in visited;
    } else {
      var r :| r in dirs && FullPath(r) == q.0 && |r.0| < |q.0| && Below(dirs, start, r);
      WalkMeets(dirs, start, w, visited, r);
      assert r in visited;
    }
  }

  /** The rows are listed by depth, the number of slashes in their full path. */
  ghost predicate ByDepth(rows: seq<Row>) {
    forall i, j :: 0 <= i < j < |rows| ==> Slashes(FullPath(rows[i])) <= Slashes(FullPath(rows[j]))
  }

  /** The queue holds the current level and then the next, and nothing deeper is listed. */
  ghost predicate Layered(w: Walk, level: nat) {
    && ByDepth(w.out) && ByDepth(w.queue)
    && (forall i :: 0 <= i < |w.out| ==> Slashes(FullPath(w.out[i])) <= level + 1)
    && (forall i :: 0 <= i < |w.queue| ==> level <= Slashes(FullPath(w.queue[i])) <= level + 1)
    && (forall q :: q in w.stream.GetOr([]) ==> Slashes(FullPath(q)) == level + 1)
  }

  lemma ChildIsDeeper(r: Row, q: Row)
    requires q.0 == FullPath(r) != [] && ValidRow(q)
    ensures Slashes(FullPath(q)) == Slashes(FullPath(r)) + 1
  {
    ChildIsLonger(r, q);
    SlashesConcat(FullPath(r) + "/", q.1);
    SlashesConcat(FullPath(r), "/");
    NoSlashes(q.1);
  }

  lemma LayeredYields(order: string -> seq<Row>, w: Walk, level: nat)
    requires Layered(w, level) && w.stream.Some?
    ensures Layered(Advance(order, w), level)
  {
    hide FullPath, Slashes;
  }

  lemma LayeredOpens(dirs: map<Row, Uuid>, order: string -> seq<Row>, w: Walk, level: nat)
    requires Rows(dirs) && Listing(dirs, order) && Layered(w, level) && w.stream.None? && w.queue != []
    requires FullPath(w.queue[0]) != []
    ensures Layered(Advance(order, w), Slashes(FullPath(w.queue[0])))
  {
    hide FullPath, Slashes;
    var next := w.queue[0];
    assert Lists(order(FullPath(next)), Children(dirs, FullPath(next)));
    forall q | q in order(FullPath(next)) ensures Slashes(FullPath(q)) == Slashes(FullPath(next)) + 1 {
      ChildIsDeeper(next, q);
    }
  }

  // ---- what the iterator yields, and when it ends

  /** The invariant of a walk that starts below the root. */
  ghost predicate Sound(dirs: map<Row, Uuid>, start: Row, w: Walk, visited: set<Row>, level: nat) {
    Walking(dirs, start, w, visited) && Layered(w, level)
  }

  lemma SoundStarts(dirs: map<Row, Uuid>, start: Row)
    ensures Sound(dirs, start, Walk([start], None, []), {}, Slashes(FullPath(start)))
  {
    WalkStarts(dirs, start);
  }

  lemma SoundYields(dirs: map<Row, Uuid>, start: Row, order: string -> seq<Row>, w: Walk, visited: set<Row>, level: nat)
    requires FullPath(start) != [] && Sound(dirs, start, w, visited, level) && w.stream.Some? && w.stream.value != []
    ensures Sound(dirs, start, Advance(order, w), visited, level)
    ensures dirs.Keys - Elements(Advance(order, w).out) < dirs.Keys - Elements(w.out)
  {
    hide Walking, Layered;
    WalkYields(dirs, start, order, w, visited);
    LayeredYields(order, w, level);
  }

  lemma SoundCloses(dirs: map<Row, Uuid>, start: Row, order: string -> seq<Row>, w: Walk, visited: set<Row>, level: nat)
    requires Sound(dirs, start, w, visited, level) && w.stream == Some([])
    ensures Sound(dirs, start, Advance(order, w), visited, level)
  {
    hide Below, ParentIn, FullPath, Slashes;
  }

  lemma SoundOpens(dirs: map<Row, Uuid>, start: Row, order: string -> seq<Row>, w: Walk, visited: set<Row>, level: nat)
    requires Rows(dirs) && ValidRow(start) && Listing(dirs, order) && FullPath(start) != []
    requires Sound(dirs, start, w, visited, level) && w.stream.None? && w.queue != []
    ensures Sound(dirs, start, Advance(order, w), visited + {w.queue[0]}, Slashes(FullPath(w.queue[0])))
  {
    QueueIsBelow(dirs, start, w, visited);
    hide Walking, Layered, Listing, FullPath;
    WalkOpens(dirs, start, order, w, visited);
    LayeredOpens(dirs, order, w, level);
  }

  lemma QueueIsBelow(dirs: map<Row, Uuid>, start: Row, w: Walk, visited: set<Row>)
    requires FullPath(start) != [] && Walking(dirs, start, w, visited) && w.queue != []
    ensures FullPath(w.queue[0]) != []
  {
    var q := w.queue[0];
    assert q in w.queue;
    if q != start { BelowIsLonger(dirs, start, q); }
  }

  lemma SoundEnds(dirs: map<Row, Uuid>, start: Row, w: Walk, visited: set<Row>, level: nat)
    requires Sound(dirs, start, w, visited, level) && Done(w)
    ensures NoDuplicates(w.out) && ByDepth(w.out) && forall q :: q in w.out <==> Below(dirs, start, q)
  {
    forall q | Below(dirs, start, q) ensures q in w.out {
      WalkMeets(dirs, start, w, visited, q);
    }
  }

  /** From a directory that is not the root the iterator comes to an end. */
  lemma {:induction false} EndsFrom(dirs: map<Row, Uuid>, start: Row, order: string -> seq<Row>, w: Walk,
                                    visited: set<Row>, level: nat) returns (n: nat)
    requires Rows(dirs) && ValidRow(start) && Listing(dirs, order) && FullPath(start) != []
    requires Sound(dirs, start, w, visited, level)
    ensures Done(Turns(order, w, n))
    decreases dirs.Keys - Elements(w.out), |w.queue|, w.stream.Some?
  {
    hide Sound, Listing, FullPath, Rows, ValidRow, Elements;
    if Done(w) {
      n := 0;
    } else {
      var w' := Advance(order, w);
      if w.stream.None? {
        SoundOpens(dirs, start, order, w, visited, level);
        n := EndsFrom(dirs, start, order, w', visited + {w.queue[0]}, Slashes(FullPath(w.queue[0])));
      } else {
        if w.stream.value == [] {
          SoundCloses(dirs, start, order, w, visited, level);
        } else {
          SoundYields(dirs, start, order, w, visited, level);
        }
        n := EndsFrom(dirs, start, order, w', visited, level);
      }
      n := n + 1;
    }
  }

  /** The row that stands for the root. Its full path is its own parent. */
  const ROOT: Row := ([], [])

  ghost predicate HasRoot(w: Walk) {
    ROOT in w.queue || ROOT in w.stream.GetOr([])
  }

  lemma {:induction false} RootKeepsTurning(dirs: map<Row, Uuid>, order: string -> seq<Row>, w: Walk, n: nat)
    requires Listing(dirs, order) && ROOT in dirs && HasRoot(w)
    ensures !Done(Turns(order, w, n)) && HasRoot(Turns(order, w, n))
    decreases n
  {
    if n > 0 {
      assert Lists(order([]), Children(dirs, []));
      assert ROOT in Children(dirs, []);
      var w' := Advance(order, w);
      if w.stream.None? {
        assert w.queue == [w.queue[0]] + w.queue[1..];
      } else if w.stream.value != [] {
        assert w.stream.value == [w.stream.value[0]] + w.stream.value[1..];
      }
      assert HasRoot(w');
      RootKeepsTurning(dirs, order, w', n - 1);
    }
  }

  /** Started from a row of the table the iterator ends exactly when the row's full path is not empty. */
  lemma IteratorEndsIff(dirs: map<Row, Uuid>, start: Row, order: string -> seq<Row>)
    requires Rows(dirs) && Listing(dirs, order) && start in dirs
    ensures (exists n: nat :: Done(Turns(order, Walk([start], None, []), n))) <==> FullPath(start) != []
  {
    var w := Walk([start], None, []);
    if FullPath(start) != [] {
      SoundStarts(dirs, start);
      var n := EndsFrom(dirs, start, order, w, {}, Slashes(FullPath(start)));
    } else {
      assert start == ROOT;
      forall n: nat ensures !Done(Turns(order, w, n)) {
        RootKeepsTurning(dirs, order, w, n);
      }
    }
  }

  /** In a tree, below a directory are exactly the rows whose full path goes on from its own. */
  lemma {:induction false} BelowInTree(dirs: map<Row, Uuid>, start: Row, q: Row)
    requires Tree(dirs) && FullPath(start) != []
    ensures Below(dirs, start, q) <==> q in dirs && FullPath(start) + "/" <= FullPath(q)
    decreases |q.0|
  {
    if Below(dirs, start, q) {
      BelowIsLonger(dirs, start, q);
    } else if q in dirs && FullPath(start) + "/" <= FullPath(q) {
      NamesAreNoPrefix(start, q);
      var r := KeyOf(q.0);
      ProperParent(q);
      BelowInTree(dirs, start, r);
      ChildIsLonger(r, q);
      assert Below(dirs, start, r) ==> Below(dirs, start, q);
    }
  }

  lemma NamesAreNoPrefix(start: Row, q: Row)
    requires ProperRow(q) && FullPath(start) + "/" <= FullPath(q)
    ensures q.0 != [] && (q.0 == FullPath(start) || FullPath(start) + "/" <= q.0)
  {
    hide Normalize, Segments;
    var f, p := FullPath(q), FullPath(start) + "/";
    assert f[|p| - 1] == '/' && f[|p| - 1] in f;
    if q.0 != [] {
      assert forall i :: |q.0| < i < |f| ==> f[i] == q.1[i - |q.0| - 1] && f[i] in q.1;
      assert |p| - 1 <= |q.0|;
      assert q.0 == f[..|q.0|];
    }
  }

  lemma ProperParent(q: Row)
    requires ProperRow(q) && q.0 != []
    ensures FullPath(KeyOf(q.0)) == q.0 && |KeyOf(q.0).0| < |q.0|
  {
    hide Segments, Join, Normalize, KeyOf;
    NormalizeSplitsAndJoins(q.0);
    if Segments(q.0) == [] { JoinNone(); }
    RowOfPathIff(q.0);
    ShorterParent(KeyOf(q.0), q.0);
  }

  lemma ShorterParent(r: Row, path: string)
    requires FullPath(r) == path != []
    ensures |r.0| < |path|
  {
  }

  // ---- dot components

  /** The path has no names, or its first one is a dot. */
  predicate BeginsWithDot(path: string) {
    Segments(path) == [] || IsDot(Segments(path)[0])
  }

  lemma {:induction false} RootInLineageIff(path: string)
    ensures ROOT in Lineage(path) <==> BeginsWithDot(path)
    decreases |Segments(path)|
  {
    hide Segments, Join;
    LineageStep(path);
    var names := TrimDots(Segments(path));
    if names != [] {
      assert names[0] == Segments(path)[0];
      var parent := TrimDots(names[..|names| - 1]);
      if parent == [] {
        assert |names| == 1;
      } else {
        UpIsShorter(path);
        SegmentsOfJoin(parent);
        JoinIsNotEmpty(parent);
        RootInLineageIff(Join(parent));
        assert parent[0] == names[0];
      }
    }
  }

  /** In a linked table every row of a directory's lineage is there. */
  lemma {:induction false} LineageIsThere(dirs: map<Row, Uuid>, path: string)
    requires Linked(dirs) && KeyOf(path) in dirs
    ensures forall k :: k in Lineage(path) ==> k in dirs
    decreases |Segments(path)|
  {
    hide Segments, Join;
    LineageStep(path);
    if Up(path).Some? {
      UpIsShorter(path);
      LineageIsThere(dirs, Up(path).value);
    }
  }

  lemma MkdirMakesRootIff(before: map<Row, Uuid>, after: map<Row, Uuid>, path: string)
    requires Linked(after) && KeyOf(path) in after && forall k :: k in after && k !in before ==> k in Lineage(path)
    ensures ROOT !in before ==> (ROOT in after <==> BeginsWithDot(path))
  {
    hide KeyOf, Lineage, BeginsWithDot, Linked;
    RootInLineageIff(path);
    LineageIsThere(after, path);
  }

  /** The path ".." is accepted, and its row is the root's. */
  lemma DotDotIsRoot(maxLength: nat, maxDepth: nat)
    requires 2 <= maxLength && maxLength + 32 < U32 && 1 <= maxDepth
    ensures PreparePath("..", maxLength, maxDepth) == Some("..") && KeyOf("..") == ROOT
  {
    hide Segments, Join, Normalize;
    assert IsName("..");
    SegmentsOfJoin([".."]);
    JoinOne("..");
    NormalizeSplitsAndJoins("..");
    NoSlashes("..");
  }

  /** Once the directory ".." has been made, listing what is below it never ends. */
  lemma DotDotNeverEnds(dirs: map<Row, Uuid>, order: string -> seq<Row>, n: nat)
    requires Listing(dirs, order) && KeyOf("..") in dirs
    ensures !Done(Turns(order, Walk([KeyOf("..")], None, []), n))
  {
    hide KeyOf;
    DotDotIsRoot(2, 1);
    RootKeepsTurning(dirs, order, Walk([KeyOf("..")], None, []), n);
  }
}

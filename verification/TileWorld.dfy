/** Maps joined at their edges, loaded when they are first needed (common/map.cpp). */
module TileWorld {
  import opened Common
  import opened Paths

  datatype State = InMemory | Swapped | Loading | Saving

  const HUGE_BUF := 4096

  /** A direction of a tile: north, east, south, west. */
  type Side = k: int | 0 <= k < 4

  class MapStruct {
    const path: string
    const width: int
    const height: int
    /** The tile paths in the map's file. */
    const names: seq<Option<string>>
    var inMemory: State
    var tilePath: seq<Option<string>>
    var tileMap: seq<MapStruct?>

    constructor (path: string, width: int, height: int, names: seq<Option<string>>)
      requires |names| == 4
      ensures this.path == path && this.width == width && this.height == height && this.names == names
      ensures inMemory == Swapped && tilePath == names && tileMap == [null, null, null, null]
    {
      this.path, this.width, this.height, this.names := path, width, height, names;
      inMemory, tilePath, tileMap := Swapped, names, [null, null, null, null];
    }
  }

  predicate OutOfMap(m: MapStruct, x: int, y: int) {
    x < 0 || y < 0 || x >= m.width || y >= m.height
  }

  /** The maps there are, by the path under which they can be loaded, and the path that a tile path
      leads to from the path of a map. */
  datatype World = World(files: map<string, MapStruct>, target: (string, string) -> string)

  /** Every map can be loaded by its own path, and is found when a tile path gives just that. */
  ghost predicate WellNamed(w: World) {
    forall p :: p in w.files ==>
      && w.files[p].path == p && (forall q: string :: w.target(q, p) == p)
      && w.files[p].width > 0 && w.files[p].height > 0 && |w.files[p].names| == 4
  }

  /** What path_combine_and_normalize makes of a map's path and a tile path. */
  function PathTarget(path: string, name: string): string {
    Normalize(CombineIn(path, name, HUGE_BUF))
  }

  /** Full paths in normal form lead to themselves from everywhere. */
  lemma NormalPathsLeadHome(p: string, q: string)
    requires Normalize(p) == p && IgnoresSource(p)
    ensures PathTarget(q, p) == p <==> |p| < HUGE_BUF
  {
    CombineFitsIff(q, p, HUGE_BUF);
    if |p| >= HUGE_BUF {
      NormalizeIsNotLonger(CombineIn(q, p, HUGE_BUF));
    }
  }

  /** A tile path that begins with neither a slash nor a tilde leads, from a map with a full path, to where
      it leads from that map's directory, by the one normal path there, if the whole fits the buffer. */
  lemma TilePathLeads(path: string, name: string)
    requires path != "" && path[0] == '/' && (name == "" || (name[0] != '/' && name[0] != '~'))
    requires |path| < HUGE_BUF && |Combine(path, name)| < HUGE_BUF
    ensures exists k :: (0 < k <= |path| && LastSlash(path, k)
      && Walk([], Components(PathTarget(path, name))) == Walk(Walk([], Components(path[..k])), Components(name)))
    ensures Normalize(PathTarget(path, name)) == PathTarget(path, name)
  {
    WhereItLeads(path, name);
    assert CombineIn(path, name, HUGE_BUF) == Combine(path, name);
    NormalizeIsIdempotent(Combine(path, name));
  }

  /** So maps stored under full paths in normal form can all be found exactly when each path fits the
      buffer. */
  lemma NormalNamesAreWellIff(files: map<string, MapStruct>)
    requires forall p :: p in files ==> files[p].path == p && Normalize(p) == p && IgnoresSource(p)
    requires forall p :: p in files ==> files[p].width > 0 && files[p].height > 0 && |files[p].names| == 4
    ensures WellNamed(World(files, PathTarget)) <==> forall p :: p in files ==> |p| < HUGE_BUF
  {
    var w := World(files, PathTarget);
    forall p, q | p in files ensures w.target(q, p) == p <==> |p| < HUGE_BUF {
      NormalPathsLeadHome(p, q);
    }
    if WellNamed(w) {
      forall p | p in files ensures |p| < HUGE_BUF {
        assert w.target("", p) == p;
      }
    }
  }

  /** The map beyond one edge, whether it is loaded or not. */
  function Next(w: World, m: MapStruct, k: Side): MapStruct?
    requires |m.names| == 4
  {
    if m.names[k].Some? && w.target(m.path, m.names[k].value) in w.files then
      w.files[w.target(m.path, m.names[k].value)]
    else null
  }

  function Above0(i: int): nat {
    if i > 0 then i else 0
  }

  /** The edge that get_map_from_coord crosses next. */
  function Exit(m: MapStruct, x: int, y: int): Side {
    if x < 0 then 3 else if x >= m.width then 1 else if y < 0 then 0 else 2
  }

  /** Coordinates on the map beyond an edge. */
  function Across(m: MapStruct, n: MapStruct, k: Side, x: int, y: int): (int, int) {
    match k
    case 0 => (x, y + n.height)
    case 1 => (x - m.width, y)
    case 2 => (x, y - m.height)
    case 3 => (x + n.width, y)
  }

  datatype Spot = Nowhere | At(m: MapStruct, x: int, y: int)

  predicate Known(w: World, m: MapStruct) {
    m.path in w.files && w.files[m.path] == m
  }

  /** Where coordinates lead, if every map were loaded and joined. */
  function Locate(w: World, m: MapStruct, x: int, y: int): (s: Spot)
    requires WellNamed(w) && Known(w, m)
    ensures s.At? ==> Known(w, s.m) && !OutOfMap(s.m, s.x, s.y)
    decreases Above0(-x), Above0(-y), Above0(x), Above0(y)
  {
    if !OutOfMap(m, x, y) then At(m, x, y)
    else
      var k := Exit(m, x, y);
      var n := Next(w, m, k);
      if n == null then Nowhere
      else
        var (x', y') := Across(m, n, k, x, y);
        Locate(w, n, x', y')
  }

  // ---------------------------------------------------------------------------------------
  // A consistent layout
  // ---------------------------------------------------------------------------------------

  /** Where each map's upper left corner lies. */
  type Layout = map<string, (int, int)>

  /** How far the corner of the map beyond an edge is from a map's corner. */
  function Offset(m: MapStruct, n: MapStruct, k: Side): (int, int) {
    match k
    case 0 => (0, -n.height)
    case 1 => (m.width, 0)
    case 2 => (0, m.height)
    case 3 => (-n.width, 0)
  }

  /** How far one corner is from another. */
  function Between(o: Layout, m: MapStruct, n: MapStruct): (int, int)
    requires m.path in o && n.path in o
  {
    (o[n.path].0 - o[m.path].0, o[n.path].1 - o[m.path].1)
  }

  /** The map beyond an edge lies against that edge. */
  ghost predicate Against(o: Layout, m: MapStruct, k: Side, n: MapStruct) {
    m.path in o && n.path in o && Between(o, m, n) == Offset(m, n, k)
  }

  ghost predicate LaidOut(w: World, o: Layout)
    requires WellNamed(w)
  {
    && (forall p :: p in w.files ==> p in o)
    && forall p, k: Side :: p in w.files && Next(w, w.files[p], k) != null ==>
         Against(o, w.files[p], k, Next(w, w.files[p], k))
  }

  lemma NextIsKnown(w: World, m: MapStruct, k: Side)
    requires WellNamed(w) && Known(w, m)
    ensures Next(w, m, k) != null ==> Known(w, Next(w, m, k))
  {}

  /** In a consistent layout, the place found is the place asked for. */
  lemma {:induction false} LocateKeepsPosition(w: World, o: Layout, m: MapStruct, x: int, y: int)
    requires WellNamed(w) && Known(w, m) && LaidOut(w, o)
    ensures var s := Locate(w, m, x, y);
      s.At? ==> o[s.m.path].0 + s.x == o[m.path].0 + x && o[s.m.path].1 + s.y == o[m.path].1 + y
    decreases Above0(-x), Above0(-y), Above0(x), Above0(y)
  {
    if OutOfMap(m, x, y) {
      var k := Exit(m, x, y);
      var n := Next(w, m, k);
      if n != null {
        NextIsKnown(w, m, k);
        assert Next(w, w.files[m.path], k) == n && Against(o, m, k, n);
        var (x', y') := Across(m, n, k, x, y);
        LocateKeepsPosition(w, o, n, x', y');
      }
    }
  }

  ghost predicate Covers(o: Layout, m: MapStruct, x: int, y: int) {
    m.path in o && o[m.path].0 <= x < o[m.path].0 + m.width && o[m.path].1 <= y < o[m.path].1 + m.height
  }

  ghost predicate NoOverlap(w: World, o: Layout) {
    forall p, q, x, y ::
      p in w.files && q in w.files && Covers(o, w.files[p], x, y) && Covers(o, w.files[q], x, y) ==> p == q
  }

  /** Where maps do not overlap, it is the only map there is at that place. */
  lemma LocateFindsTheMap(w: World, o: Layout, m: MapStruct, x: int, y: int, n: MapStruct)
    requires WellNamed(w) && Known(w, m) && LaidOut(w, o) && NoOverlap(w, o) && Known(w, n)
    requires Locate(w, m, x, y).At?
    ensures Covers(o, n, o[m.path].0 + x, o[m.path].1 + y) <==> n == Locate(w, m, x, y).m
  {
    var s := Locate(w, m, x, y);
    LocateKeepsPosition(w, o, m, x, y);
    assert Covers(o, w.files[s.m.path], o[m.path].0 + x, o[m.path].1 + y);
    if Covers(o, w.files[n.path], o[m.path].0 + x, o[m.path].1 + y) {
      assert n.path == s.m.path;
    }
  }

  // ---------------------------------------------------------------------------------------
  // When a place is found
  // ---------------------------------------------------------------------------------------

  /** Coordinates on a map, given by its path. */
  datatype Stop = Stop(path: string, x: int, y: int)

  ghost predicate OnFile(w: World, a: Stop) {
    a.path in w.files
  }

  /** The coordinates lie on the map. */
  ghost predicate Inside(w: World, a: Stop)
    requires OnFile(w, a)
  {
    0 <= a.x < w.files[a.path].width && 0 <= a.y < w.files[a.path].height
  }

  /** The edge that is crossed first: sideways before up and down. */
  ghost predicate LeavesBy(w: World, a: Stop, k: Side)
    requires OnFile(w, a)
  {
    var m := w.files[a.path];
    match k
    case 3 => a.x < 0
    case 1 => m.width <= a.x && 0 <= a.x
    case 0 => 0 <= a.x < m.width && a.y < 0
    case 2 => 0 <= a.x < m.width && m.height <= a.y && 0 <= a.y
  }

  /** From a, which is off its map, to the same place seen from the map beyond that edge. */
  ghost predicate Crosses(w: World, a: Stop, b: Stop)
    requires WellNamed(w) && OnFile(w, a) && OnFile(w, b)
  {
    var m, n := w.files[a.path], w.files[b.path];
    || (LeavesBy(w, a, 3) && n == Next(w, m, 3) && (b.x, b.y) == (a.x + n.width, a.y))
    || (LeavesBy(w, a, 1) && n == Next(w, m, 1) && (b.x, b.y) == (a.x - m.width, a.y))
    || (LeavesBy(w, a, 0) && n == Next(w, m, 0) && (b.x, b.y) == (a.x, a.y + n.height))
    || (LeavesBy(w, a, 2) && n == Next(w, m, 2) && (b.x, b.y) == (a.x, a.y - m.height))
  }

  /** There is no map beyond the edge. */
  ghost predicate Stuck(w: World, a: Stop)
    requires WellNamed(w) && OnFile(w, a)
  {
    exists k: Side :: LeavesBy(w, a, k) && Next(w, w.files[a.path], k) == null
  }

  ghost predicate Way(w: World, way: seq<Stop>)
    requires WellNamed(w)
  {
    && way != [] && (forall i :: 0 <= i < |way| ==> OnFile(w, way[i]))
    && forall i :: 0 < i < |way| ==> Crosses(w, way[i - 1], way[i])
  }

  ghost predicate LeadsTo(w: World, a: Stop, b: Stop)
    requires WellNamed(w)
  {
    exists way :: Way(w, way) && way[0] == a && way[|way| - 1] == b
  }

  function LocateFrom(w: World, a: Stop): Spot
    requires WellNamed(w) && OnFile(w, a)
  {
    Locate(w, w.files[a.path], a.x, a.y)
  }

  /** There is at most one way on. */
  lemma CrossingKeepsAnswer(w: World, a: Stop, b: Stop)
    requires WellNamed(w) && OnFile(w, a) && OnFile(w, b) && Crosses(w, a, b)
    ensures LocateFrom(w, a) == LocateFrom(w, b)
  {}

  lemma {:induction false} WayKeepsAnswer(w: World, way: seq<Stop>)
    requires WellNamed(w) && Way(w, way)
    ensures LocateFrom(w, way[0]) == LocateFrom(w, way[|way| - 1])
    decreases |way|
  {
    if |way| > 1 {
      assert Crosses(w, way[0], way[1]);
      CrossingKeepsAnswer(w, way[0], way[1]);
      forall i | 0 < i < |way[1..]| ensures Crosses(w, way[1..][i - 1], way[1..][i]) {
        assert Crosses(w, way[i], way[i + 1]);
      }
      WayKeepsAnswer(w, way[1..]);
    }
  }

  /** The way to its end. */
  lemma {:induction false} FollowWay(w: World, m: MapStruct, x: int, y: int) returns (way: seq<Stop>)
    requires WellNamed(w) && Known(w, m)
    ensures Way(w, way) && way[0] == Stop(m.path, x, y)
    ensures Inside(w, way[|way| - 1]) || Stuck(w, way[|way| - 1])
    decreases Above0(-x), Above0(-y), Above0(x), Above0(y)
  {
    var a := Stop(m.path, x, y);
    if !OutOfMap(m, x, y) {
      way := [a];
    } else {
      var k := Exit(m, x, y);
      var n := Next(w, m, k);
      assert LeavesBy(w, a, k);
      if n == null {
        way := [a];
      } else {
        NextIsKnown(w, m, k);
        var (x', y') := Across(m, n, k, x, y);
        var rest := FollowWay(w, n, x', y');
        way := [a] + rest;
        forall i | 0 < i < |way| ensures Crosses(w, way[i - 1], way[i]) {
          if i > 1 {
            assert Crosses(w, rest[i - 2], rest[i - 1]);
          }
        }
      }
    }
  }

  /** A place is found exactly if the maps lead to it, and nothing is found exactly if they lead to an
      edge without a map beyond. */
  lemma LocateIff(w: World, a: Stop)
    requires WellNamed(w) && OnFile(w, a)
    ensures LocateFrom(w, a).At? <==> exists b :: LeadsTo(w, a, b) && OnFile(w, b) && Inside(w, b)
    ensures LocateFrom(w, a).Nowhere? <==> exists b :: LeadsTo(w, a, b) && OnFile(w, b) && Stuck(w, b)
    ensures forall b :: LeadsTo(w, a, b) && OnFile(w, b) && Inside(w, b) ==>
      LocateFrom(w, a) == At(w.files[b.path], b.x, b.y)
  {
    var way := FollowWay(w, w.files[a.path], a.x, a.y);
    WayKeepsAnswer(w, way);
    assert LeadsTo(w, a, way[|way| - 1]);
    forall b | LeadsTo(w, a, b) ensures OnFile(w, b) && LocateFrom(w, a) == LocateFrom(w, b) {
      var some :| Way(w, some) && some[0] == a && some[|some| - 1] == b;
      WayKeepsAnswer(w, some);
    }
  }

  /** Part of n lies further out than edge k of m. */
  ghost predicate Beyond(o: Layout, m: MapStruct, k: Side, n: MapStruct)
    requires m.path in o && n.path in o
  {
    match k
    case 0 => o[n.path].1 < o[m.path].1
    case 1 => o[n.path].0 + n.width > o[m.path].0 + m.width
    case 2 => o[n.path].1 + n.height > o[m.path].1 + m.height
    case 3 => o[n.path].0 < o[m.path].0
  }

  /** Where anything lies beyond an edge, there is a map to cross to. */
  ghost predicate NoGaps(w: World, o: Layout)
    requires WellNamed(w) && LaidOut(w, o)
  {
    forall p, q, k: Side :: p in w.files && q in w.files && Beyond(o, w.files[p], k, w.files[q]) ==>
      Next(w, w.files[p], k) != null
  }

  ghost predicate Covered(w: World, o: Layout, x: int, y: int) {
    exists p :: p in w.files && Covers(o, w.files[p], x, y)
  }

  /** In a world without gaps a place is found exactly if some map is there. */
  lemma {:induction false} FoundIff(w: World, o: Layout, m: MapStruct, x: int, y: int)
    requires WellNamed(w) && Known(w, m) && LaidOut(w, o) && NoGaps(w, o)
    ensures Locate(w, m, x, y).At? <==> Covered(w, o, o[m.path].0 + x, o[m.path].1 + y)
    decreases Above0(-x), Above0(-y), Above0(x), Above0(y)
  {
    var (gx, gy) := (o[m.path].0 + x, o[m.path].1 + y);
    if !OutOfMap(m, x, y) {
      assert Covers(o, w.files[m.path], gx, gy);
    } else {
      var k := Exit(m, x, y);
      var n := Next(w, m, k);
      if n != null {
        NextIsKnown(w, m, k);
        assert Next(w, w.files[m.path], k) == n && Against(o, m, k, n);
        var (x', y') := Across(m, n, k, x, y);
        FoundIff(w, o, n, x', y');
      } else {
        CoveredIsBeyond(w, o, m, x, y);
      }
    }
  }

  lemma CoveredIsBeyond(w: World, o: Layout, m: MapStruct, x: int, y: int)
    requires WellNamed(w) && Known(w, m) && LaidOut(w, o) && OutOfMap(m, x, y)
    ensures Covered(w, o, o[m.path].0 + x, o[m.path].1 + y) ==>
      exists q :: q in w.files && Beyond(o, w.files[m.path], Exit(m, x, y), w.files[q])
  {
    if Covered(w, o, o[m.path].0 + x, o[m.path].1 + y) {
      var q :| q in w.files && Covers(o, w.files[q], o[m.path].0 + x, o[m.path].1 + y);
      assert Beyond(o, w.files[m.path], Exit(m, x, y), w.files[q]);
    }
  }

  /** And where maps do not overlap either, it is that map and the coordinates on it. */
  lemma LocateIsTheMap(w: World, o: Layout, m: MapStruct, x: int, y: int, n: MapStruct)
    requires WellNamed(w) && Known(w, m) && LaidOut(w, o) && NoGaps(w, o) && NoOverlap(w, o) && Known(w, n)
    requires Covers(o, n, o[m.path].0 + x, o[m.path].1 + y)
    ensures Locate(w, m, x, y) == At(n, o[m.path].0 + x - o[n.path].0, o[m.path].1 + y - o[n.path].1)
  {
    assert Covers(o, w.files[n.path], o[m.path].0 + x, o[m.path].1 + y);
    FoundIff(w, o, m, x, y);
    LocateFindsTheMap(w, o, m, x, y, n);
    LocateKeepsPosition(w, o, m, x, y);
  }

  /** A full grid of maps of one size, each joined to its neighbours by name. */
  ghost predicate Grid(w: World, o: Layout, cols: nat, rows: nat, wd: nat, ht: nat, name: (int, int) -> string)
    requires WellNamed(w)
  {
    && wd > 0 && ht > 0
    && (forall p :: p in w.files ==> exists i, j :: 0 <= i < cols && 0 <= j < rows && p == name(i, j))
    && forall i, j :: 0 <= i < cols && 0 <= j < rows ==> Cell(w, o, cols, rows, wd, ht, name, i, j)
  }

  ghost predicate Cell(w: World, o: Layout, cols: nat, rows: nat, wd: nat, ht: nat, name: (int, int) -> string,
                       i: int, j: int)
    requires WellNamed(w)
  {
    && name(i, j) in w.files && name(i, j) in o && o[name(i, j)] == (i * wd, j * ht)
    && w.files[name(i, j)].width == wd && w.files[name(i, j)].height == ht
    && (j > 0 ==> Joins(w, name(i, j), 0, name(i, j - 1))) && (i + 1 < cols ==> Joins(w, name(i, j), 1, name(i + 1, j)))
    && (j + 1 < rows ==> Joins(w, name(i, j), 2, name(i, j + 1))) && (i > 0 ==> Joins(w, name(i, j), 3, name(i - 1, j)))
  }

  ghost predicate Joins(w: World, p: string, k: Side, q: string)
    requires WellNamed(w)
  {
    p in w.files && q in w.files && Next(w, w.files[p], k) == w.files[q]
  }

  lemma LessTimes(a: int, b: int, n: nat)
    requires n > 0
    ensures a * n < b * n <==> a < b
    ensures a * n + n > b * n + n <==> a > b
  {}

  /** A grid has no gaps. */
  lemma GridHasNoGaps(w: World, o: Layout, cols: nat, rows: nat, wd: nat, ht: nat, name: (int, int) -> string)
    requires WellNamed(w) && LaidOut(w, o) && Grid(w, o, cols, rows, wd, ht, name)
    ensures NoGaps(w, o)
  {
    forall p, q, k: Side | p in w.files && q in w.files && Beyond(o, w.files[p], k, w.files[q])
      ensures Next(w, w.files[p], k) != null
    {
      var i, j :| 0 <= i < cols && 0 <= j < rows && p == name(i, j);
      var a, b :| 0 <= a < cols && 0 <= b < rows && q == name(a, b);
      CellsHaveNoGap(w, o, cols, rows, wd, ht, name, i, j, a, b, k);
    }
  }

  lemma CellsHaveNoGap(w: World, o: Layout, cols: nat, rows: nat, wd: nat, ht: nat, name: (int, int) -> string,
                       i: int, j: int, a: int, b: int, k: Side)
    requires WellNamed(w) && wd > 0 && ht > 0 && 0 <= i < cols && 0 <= j < rows && 0 <= a < cols && 0 <= b < rows
    requires Cell(w, o, cols, rows, wd, ht, name, i, j) && Cell(w, o, cols, rows, wd, ht, name, a, b)
    requires Beyond(o, w.files[name(i, j)], k, w.files[name(a, b)])
    ensures Next(w, w.files[name(i, j)], k) != null
  {
    LessTimes(a, i, wd);
    LessTimes(b, j, ht);
  }

  // ---------------------------------------------------------------------------------------
  // Loading and joining
  // ---------------------------------------------------------------------------------------

  function Opposite(k: Side): Side {
    (k + 2) % 4
  }

  /** Tiles joined so far are the ones their files name; tile paths are only forgotten where they lead
      nowhere. */
  ghost predicate SideJoined(w: World, m: MapStruct, k: Side, path: Option<string>, tile: MapStruct?)
    requires |m.names| == 4
  {
    && (path == m.names[k] || (path == None && Next(w, m, k) == null))
    && (tile == null || tile == Next(w, m, k))
  }

  ghost predicate MapJoined(w: World, m: MapStruct)
    reads m`tilePath, m`tileMap
  {
    && |m.names| == |m.tilePath| == |m.tileMap| == 4
    && forall k: Side :: SideJoined(w, m, k, m.tilePath[k], m.tileMap[k])
  }

  ghost predicate Joined(w: World)
    reads w.files.Values`tilePath, w.files.Values`tileMap
  {
    forall p :: p in w.files ==> MapJoined(w, w.files[p])
  }

  lemma KnownIsValue(w: World, m: MapStruct)
    requires Known(w, m)
    ensures m in w.files.Values
  {}

  /** A map that names this one for its opposite edge is joined back to it, and rightly so. */
  method JoinBack(w: World, m: MapStruct, n: MapStruct, k: Side)
    requires WellNamed(w) && Known(w, m) && Known(w, n) && MapJoined(w, n)
    modifies n`tileMap
    ensures MapJoined(w, n) && n.tileMap == old(n.tileMap)[k := n.tileMap[k]]
    ensures n.tileMap[k] == if n.tilePath[k] == Some(m.path) then m else old(n.tileMap[k])
  {
    assert SideJoined(w, n, k, n.tilePath[k], n.tileMap[k]);
    if n.tilePath[k].Some? && n.tilePath[k].value == m.path {
      n.tileMap := n.tileMap[k := m];
    }
  }

  /** load_and_link_tiled_map: loading finds the map that the tile path leads to, if there is one. */
  method LoadAndLink(w: World, m: MapStruct, k: Side) returns (n: MapStruct?)
    requires WellNamed(w) && Joined(w) && Known(w, m) && |m.tilePath| == 4 && m.tilePath[k].Some?
    modifies w.files.Values
    ensures Joined(w) && |m.tileMap| == 4 && n == m.tileMap[k] == Next(w, m, k)
    ensures n != null ==> n.inMemory == InMemory
    ensures n != null ==>
      var back: Side := if k == 0 then 2 else if k == 1 then 3 else if k == 2 then 0 else 1;
      |n.tilePath| == |n.tileMap| == 4 && (n.tilePath[back] == Some(m.path) ==> n.tileMap[back] == m)
  {
    KnownIsValue(w, m);
    assert MapJoined(w, w.files[m.path]) && SideJoined(w, m, k, m.tilePath[k], m.tileMap[k]);
    var path := w.target(m.path, m.tilePath[k].value);
    if path in w.files {
      n := w.files[path];
      KnownIsValue(w, n);
      n.inMemory := InMemory;
      m.tileMap := m.tileMap[k := n];
      assert MapJoined(w, w.files[path]);
      JoinBack(w, m, n, Opposite(k));
    } else {
      n := null;
      m.tileMap := m.tileMap[k := null];
      m.tilePath := m.tilePath[k := None];
    }
  }

  /** The map beyond an edge, loaded if need be; null when there is none. */
  method Cross(w: World, m: MapStruct, k: Side) returns (n: MapStruct?)
    requires WellNamed(w) && Joined(w) && Known(w, m)
    modifies w.files.Values
    ensures Joined(w) && n == Next(w, m, k)
  {
    assert MapJoined(w, w.files[m.path]) && SideJoined(w, m, k, m.tilePath[k], m.tileMap[k]);
    if m.tilePath[k] == None {
      return null;
    }
    if m.tileMap[k] == null || m.tileMap[k].inMemory != InMemory {
      n := LoadAndLink(w, m, k);
    } else {
      n := m.tileMap[k];
    }
  }

  /** One step of get_map_from_coord from outside the map. */
  method Step(w: World, m: MapStruct, x: int, y: int) returns (n: MapStruct?, x': int, y': int)
    requires WellNamed(w) && Joined(w) && Known(w, m) && OutOfMap(m, x, y)
    modifies w.files.Values
    ensures Joined(w) && n == Next(w, m, Exit(m, x, y))
    ensures n != null ==> (x', y') == Across(m, n, Exit(m, x, y), x, y)
  {
    x', y' := x, y;
    if x < 0 {
      n := Cross(w, m, 3);
      if n != null {
        x' := x + n.width;
      }
    } else if x >= m.width {
      n := Cross(w, m, 1);
      x' := x - m.width;
    } else if y < 0 {
      n := Cross(w, m, 0);
      if n != null {
        y' := y + n.height;
      }
    } else if y >= m.height {
      n := Cross(w, m, 2);
      y' := y - m.height;
    }
  }

  /** get_map_from_coord: whatever has been loaded, joined or forgotten before, the answer is where
      the coordinates lead in the world of files. */
  method GetMapFromCoord(w: World, start: MapStruct?, x: int, y: int) returns (r: Spot)
    requires WellNamed(w) && Joined(w) && (start != null ==> Known(w, start))
    modifies w.files.Values
    ensures Joined(w)
    ensures r == if start == null || old(start.inMemory) == Swapped then Nowhere else Locate(w, start, x, y)
  {
    if start == null {
      return Nowhere;
    }
    if start.inMemory == Swapped {
      return Nowhere;
    }
    var m: MapStruct, x', y' := start, x, y;
    while OutOfMap(m, x', y')
      invariant Joined(w) && Known(w, m)
      invariant Locate(w, m, x', y') == Locate(w, start, x, y)
      decreases Above0(-x'), Above0(-y'), Above0(x'), Above0(y')
    {
      NextIsKnown(w, m, Exit(m, x', y'));
      var n, x'', y'' := Step(w, m, x', y');
      if n == null {
        return Nowhere;
      }
      m, x', y' := n, x'', y'';
    }
    r := At(m, x', y');
  }

  // ---------------------------------------------------------------------------------------
  // Distances
  // ---------------------------------------------------------------------------------------

  /** The map joined at an edge so far. */
  function Neighbour(w: World, m: MapStruct, k: Side): (n: MapStruct?)
    requires Joined(w) && WellNamed(w) && Known(w, m)
    reads w.files.Values`tilePath, w.files.Values`tileMap
    ensures n != null ==> n == Next(w, m, k) && Known(w, n)
  {
    KnownIsValue(w, m);
    assert MapJoined(w, w.files[m.path]) && SideJoined(w, m, k, m.tilePath[k], m.tileMap[k]);
    m.tileMap[k]
  }

  /** adjacent_map: how far it is from one map to another that is joined to it in at most two steps
      around a corner. */
  function AdjacentMap(w: World, m1: MapStruct?, m2: MapStruct?): Option<(int, int)>
    requires Joined(w) && WellNamed(w) && (m1 != null ==> Known(w, m1)) && (m2 != null ==> Known(w, m2))
    reads w.files.Values`tilePath, w.files.Values`tileMap
  {
    if m1 == null || m2 == null then None
    else
      if m1 == m2 then Some((0, 0))
      else if Neighbour(w, m1, 0) == m2 then Some((0, -m2.height))
      else if Neighbour(w, m1, 1) == m2 then Some((m1.width, 0))
      else if Neighbour(w, m1, 2) == m2 then Some((0, m1.height))
      else if Neighbour(w, m1, 3) == m2 then Some((-m2.width, 0))
      else AroundMap(w, m1, m2)
  }

  /** The maps around a corner. */
  function AroundMap(w: World, m1: MapStruct, m2: MapStruct): Option<(int, int)>
    requires Joined(w) && WellNamed(w) && Known(w, m1) && Known(w, m2)
    reads w.files.Values`tilePath, w.files.Values`tileMap
  {
    var north, east, south, west := Neighbour(w, m1, 0), Neighbour(w, m1, 1), Neighbour(w, m1, 2), Neighbour(w, m1, 3);
    if north != null && Neighbour(w, north, 1) == m2 then Some((north.width, -north.height))
    else if north != null && Neighbour(w, north, 3) == m2 then Some((-m2.width, -north.height))
    else if east != null && Neighbour(w, east, 0) == m2 then Some((m1.width, -m2.height))
    else if east != null && Neighbour(w, east, 2) == m2 then Some((m1.width, east.height))
    else if south != null && Neighbour(w, south, 1) == m2 then Some((south.width, m1.height))
    else if south != null && Neighbour(w, south, 3) == m2 then Some((-m2.width, m1.height))
    else if west != null && Neighbour(w, west, 0) == m2 then Some((-west.width, -m2.height))
    else if west != null && Neighbour(w, west, 2) == m2 then Some((-west.width, west.height))
    else None
  }

  /** The step from a map to the one joined at an edge. */
  lemma NeighbourIsAgainst(w: World, o: Layout, m: MapStruct, k: Side)
    requires WellNamed(w) && Joined(w) && LaidOut(w, o) && Known(w, m) && Neighbour(w, m, k) != null
    ensures Against(o, m, k, Neighbour(w, m, k))
  {
    assert Next(w, w.files[m.path], k) == Neighbour(w, m, k);
  }

  lemma TwoSteps(w: World, o: Layout, m: MapStruct, k: Side, j: Side)
    requires WellNamed(w) && Joined(w) && LaidOut(w, o) && Known(w, m)
    requires Neighbour(w, m, k) != null && Neighbour(w, Neighbour(w, m, k), j) != null
    ensures var n := Neighbour(w, m, k);
      var m2 := Neighbour(w, n, j);
      && m.path in o && m2.path in o
      && Between(o, m, m2) == (Offset(m, n, k).0 + Offset(n, m2, j).0, Offset(m, n, k).1 + Offset(n, m2, j).1)
  {
    NeighbourIsAgainst(w, o, m, k);
    NeighbourIsAgainst(w, o, Neighbour(w, m, k), j);
  }

  lemma AroundIsDistance(w: World, o: Layout, m1: MapStruct, m2: MapStruct)
    requires WellNamed(w) && Joined(w) && LaidOut(w, o) && Known(w, m1) && Known(w, m2)
    requires AroundMap(w, m1, m2).Some?
    ensures AroundMap(w, m1, m2).value == Between(o, m1, m2)
  {
    if AroundCorner(w, m1, 0, 1, m2) {
      TwoSteps(w, o, m1, 0, 1);
    } else if AroundCorner(w, m1, 0, 3, m2) {
      TwoSteps(w, o, m1, 0, 3);
    } else if AroundCorner(w, m1, 1, 0, m2) {
      TwoSteps(w, o, m1, 1, 0);
    } else if AroundCorner(w, m1, 1, 2, m2) {
      TwoSteps(w, o, m1, 1, 2);
    } else if AroundCorner(w, m1, 2, 1, m2) {
      TwoSteps(w, o, m1, 2, 1);
    } else if AroundCorner(w, m1, 2, 3, m2) {
      TwoSteps(w, o, m1, 2, 3);
    } else if AroundCorner(w, m1, 3, 0, m2) {
      TwoSteps(w, o, m1, 3, 0);
    } else if AroundCorner(w, m1, 3, 2, m2) {
      TwoSteps(w, o, m1, 3, 2);
    }
  }

  /** In a consistent layout, every distance that adjacent_map gives is the distance between the two
      maps' corners. */
  lemma AdjacentIsDistance(w: World, o: Layout, m1: MapStruct, m2: MapStruct)
    requires WellNamed(w) && Joined(w) && LaidOut(w, o) && Known(w, m1) && Known(w, m2)
    requires AdjacentMap(w, m1, m2).Some?
    ensures AdjacentMap(w, m1, m2).value == Between(o, m1, m2)
  {
    if m1 != m2 {
      if k: Side :| Neighbour(w, m1, k) == m2 {
        forall j: Side | Neighbour(w, m1, j) == m2 ensures Against(o, m1, j, m2) {
          NeighbourIsAgainst(w, o, m1, j);
        }
      } else {
        AroundIsDistance(w, o, m1, m2);
      }
    }
  }

  ghost predicate AroundCorner(w: World, m1: MapStruct, k: Side, j: Side, m2: MapStruct)
    requires Joined(w) && WellNamed(w) && Known(w, m1)
    reads w.files.Values`tilePath, w.files.Values`tileMap
  {
    k % 2 != j % 2 && Neighbour(w, m1, k) != null && Neighbour(w, Neighbour(w, m1, k), j) == m2
  }

  /** Two maps count as adjacent when they are the same, joined at an edge, or joined around a corner
      in either order. */
  lemma AdjacentIff(w: World, m1: MapStruct, m2: MapStruct)
    requires WellNamed(w) && Joined(w) && Known(w, m1) && Known(w, m2)
    ensures AdjacentMap(w, m1, m2).Some? <==>
              m1 == m2 || (exists k: Side :: Neighbour(w, m1, k) == m2)
              || exists k: Side, j: Side :: AroundCorner(w, m1, k, j, m2)
  {
    if AdjacentMap(w, m1, m2).Some? {
      assert m1 == m2 || Neighbour(w, m1, 0) == m2 || Neighbour(w, m1, 1) == m2 || Neighbour(w, m1, 2) == m2
        || Neighbour(w, m1, 3) == m2 || AroundCorner(w, m1, 0, 1, m2) || AroundCorner(w, m1, 0, 3, m2)
        || AroundCorner(w, m1, 1, 0, m2) || AroundCorner(w, m1, 1, 2, m2) || AroundCorner(w, m1, 2, 1, m2)
        || AroundCorner(w, m1, 2, 3, m2) || AroundCorner(w, m1, 3, 0, m2) || AroundCorner(w, m1, 3, 2, m2);
    }
    if k: Side, j: Side :| AroundCorner(w, m1, k, j, m2) {
      assert k == 0 || k == 1 || k == 2 || k == 3;
    }
  }

  /** One part of an object, or the target, on its map. */
  datatype Piece = Piece(m: MapStruct, x: int, y: int)

  function Square(d: (int, int)): int {
    d.0 * d.0 + d.1 * d.1
  }

  /** From a part to the target, had the part the first part's map. */
  function Towards(parts: seq<Piece>, i: nat, d: (int, int), target: Piece): (int, int)
    requires i < |parts|
  {
    (d.0 + target.x - parts[i].x, d.1 + target.y - parts[i].y)
  }

  /** The first of those parts among the first n that seem to be nearest. */
  function Nearest(parts: seq<Piece>, n: nat, d: (int, int), target: Piece): (best: nat)
    requires 0 < n <= |parts|
    ensures best < n
    ensures forall k :: 0 <= k < n ==>
      && Square(Towards(parts, best, d, target)) <= Square(Towards(parts, k, d, target))
      && (k < best ==> Square(Towards(parts, best, d, target)) < Square(Towards(parts, k, d, target)))
  {
    if n == 1 then 0
    else
      var best := Nearest(parts, n - 1, d, target);
      if Square(Towards(parts, n - 1, d, target)) < Square(Towards(parts, best, d, target)) then n - 1 else best
  }

  /** get_rangevector: from the first of the parts that seem nearest, or from the object itself if asked so. */
  method GetRangeVector(w: World, parts: seq<Piece>, target: Piece, headOnly: bool)
    returns (found: bool, dx: int, dy: int, part: Option<nat>)
    requires Joined(w) && WellNamed(w) && parts != [] && Known(w, parts[0].m) && Known(w, target.m)
    ensures var d := AdjacentMap(w, parts[0].m, target.m);
      && found == d.Some?
      && (!found ==> dx == dy == 32767 && part == None)
      && (found ==>
            && part == Some(if headOnly then 0 else Nearest(parts, |parts|, d.value, target))
            && (dx, dy) == Towards(parts, part.value, d.value, target))
  {
    var d := AdjacentMap(w, parts[0].m, target.m);
    if d == None {
      return false, 32767, 32767, None;
    }
    var op1 := parts[0];
    dx, dy := d.value.0 + (target.x - op1.x), d.value.1 + (target.y - op1.y);
    var best: nat := 0;
    if !headOnly {
      best := NearestPart(parts, dx, dy, d.value, target);
      if best != 0 {
        dx, dy := dx + (op1.x - parts[best].x), dy + (op1.y - parts[best].y);
      }
    }
    return true, dx, dy, Some(best);
  }

  /** The search for the closest part, from the vector for the first one. */
  method NearestPart(parts: seq<Piece>, dx: int, dy: int, ghost d: (int, int), ghost target: Piece) returns (best: nat)
    requires parts != [] && (dx, dy) == Towards(parts, 0, d, target)
    ensures best == Nearest(parts, |parts|, d, target)
  {
    var op1 := parts[0];
    best := 0;
    var bestDistance := Square((dx, dy));
    var i := 1;
    while i < |parts|
      invariant 1 <= i <= |parts| && best == Nearest(parts, i, d, target)
      invariant bestDistance == Square(Towards(parts, best, d, target))
    {
      var tmp := parts[i];
      var distance := Square((op1.x - tmp.x + dx, op1.y - tmp.y + dy));
      assert (op1.x - tmp.x + dx, op1.y - tmp.y + dy) == Towards(parts, i, d, target);
      if distance < bestDistance {
        bestDistance, best := distance, i;
      }
      i := i + 1;
    }
  }

  // ---------------------------------------------------------------------------------------
  // Distances in the world
  // ---------------------------------------------------------------------------------------

  /** Where a piece lies in the world. */
  function Position(o: Layout, p: Piece): (int, int)
    requires p.m.path in o
  {
    (o[p.m.path].0 + p.x, o[p.m.path].1 + p.y)
  }

  function Displacement(o: Layout, p: Piece, target: Piece): (int, int)
    requires p.m.path in o && target.m.path in o
  {
    (Position(o, target).0 - Position(o, p).0, Position(o, target).1 - Position(o, p).1)
  }

  /** A consistently laid out world with all the parts of an object in it. */
  ghost predicate Placed(w: World, o: Layout, parts: seq<Piece>)
    reads w.files.Values`tilePath, w.files.Values`tileMap
  {
    && WellNamed(w) && Joined(w) && LaidOut(w, o)
    && parts != [] && forall i :: 0 <= i < |parts| ==> Known(w, parts[i].m)
  }

  /** A target that get_rangevector gives an answer for. */
  ghost predicate Reachable(w: World, o: Layout, parts: seq<Piece>, target: Piece)
    requires Placed(w, o, parts)
    reads w.files.Values`tilePath, w.files.Values`tileMap
  {
    Known(w, target.m) && AdjacentMap(w, parts[0].m, target.m).Some?
  }

  /** The part that get_rangevector picks is nearest in the world, and the vector is the way from there. */
  ghost predicate RangeIsRight(w: World, o: Layout, parts: seq<Piece>, target: Piece)
    requires Placed(w, o, parts) && Reachable(w, o, parts, target)
    reads w.files.Values`tilePath, w.files.Values`tileMap
  {
    var d := AdjacentMap(w, parts[0].m, target.m).value;
    var best := Nearest(parts, |parts|, d, target);
    && Towards(parts, best, d, target) == Displacement(o, parts[best], target)
    && forall k :: 0 <= k < |parts| ==>
         Square(Displacement(o, parts[best], target)) <= Square(Displacement(o, parts[k], target))
  }

  /** The vector is the displacement in the world exactly when the part it starts from lies on a map
      with the same corner as the first part's: the parts' maps are not looked at. */
  lemma RangeIsDisplacementIff(w: World, o: Layout, parts: seq<Piece>, target: Piece, i: nat)
    requires WellNamed(w) && Joined(w) && LaidOut(w, o) && i < |parts|
    requires Known(w, parts[0].m) && Known(w, target.m) && Known(w, parts[i].m)
    requires AdjacentMap(w, parts[0].m, target.m).Some?
    ensures var (a, b, c) := (o[parts[i].m.path], o[target.m.path], o[parts[0].m.path]);
      Towards(parts, i, AdjacentMap(w, parts[0].m, target.m).value, target)
        == (b.0 + target.x - (a.0 + parts[i].x), b.1 + target.y - (a.1 + parts[i].y))
      <==> a == c
  {
    AdjacentIsDistance(w, o, parts[0].m, target.m);
  }

  /** The part's map has the same corner as the first part's. */
  predicate AtHome(o: Layout, parts: seq<Piece>, i: nat)
    requires i < |parts| && parts[0].m.path in o && parts[i].m.path in o
  {
    o[parts[i].m.path] == o[parts[0].m.path]
  }

  /** No matter where the target is. */
  ghost predicate AlwaysRight(w: World, o: Layout, parts: seq<Piece>)
    requires Placed(w, o, parts)
    reads w.files.Values`tilePath, w.files.Values`tileMap
  {
    forall p, x, y :: p in w.files && Reachable(w, o, parts, Piece(w.files[p], x, y)) ==>
      RangeIsRight(w, o, parts, Piece(w.files[p], x, y))
  }

  /** There is a part at home on the same spot in the world, and the first part with the same coordinates
      is at home: either says that the part itself is, unless parts share a spot or coordinates. */
  ghost predicate StoodFor(o: Layout, parts: seq<Piece>, i: nat)
    requires i < |parts| && forall k :: 0 <= k < |parts| ==> parts[k].m.path in o
  {
    && (exists k :: 0 <= k < |parts| && AtHome(o, parts, k) && Position(o, parts[k]) == Position(o, parts[i]))
    && AtHome(o, parts, FirstLike(parts, i))
  }

  /** The first part with the coordinates of part i. */
  function FirstLike(parts: seq<Piece>, i: nat): (j: nat)
    requires i < |parts|
    ensures j <= i && parts[j].x == parts[i].x && parts[j].y == parts[i].y
    ensures forall k :: 0 <= k < j ==> !(parts[k].x == parts[i].x && parts[k].y == parts[i].y)
  {
    FirstAt(parts, 0, i)
  }

  function FirstAt(parts: seq<Piece>, from: nat, i: nat): (j: nat)
    requires from <= i < |parts|
    ensures from <= j <= i && parts[j].x == parts[i].x && parts[j].y == parts[i].y
    ensures forall k :: from <= k < j ==> !(parts[k].x == parts[i].x && parts[k].y == parts[i].y)
    decreases i - from
  {
    if parts[from].x == parts[i].x && parts[from].y == parts[i].y then from else FirstAt(parts, from + 1, i)
  }

  lemma SquareIsZero(d: (int, int))
    ensures Square(d) >= 0 && (Square(d) == 0 <==> d == (0, 0))
  {}

  /** A target on the first part's map, with any coordinates. */
  lemma OnHeadsMap(w: World, o: Layout, parts: seq<Piece>, x: int, y: int) returns (target: Piece)
    requires Placed(w, o, parts)
    ensures target == Piece(parts[0].m, x, y) && Reachable(w, o, parts, target)
    ensures AdjacentMap(w, parts[0].m, target.m) == Some((0, 0))
    ensures AlwaysRight(w, o, parts) ==> RangeIsRight(w, o, parts, target)
  {
    target := Piece(w.files[parts[0].m.path], x, y);
  }

  /** The vector is right, and the part nearest, for every target there can be exactly when every part is
      stood for by one whose map has the first part's corner. */
  lemma AlwaysRightIff(w: World, o: Layout, parts: seq<Piece>)
    requires Placed(w, o, parts)
    ensures AlwaysRight(w, o, parts) <==> forall i :: 0 <= i < |parts| ==> StoodFor(o, parts, i)
  {
    if AlwaysRight(w, o, parts) {
      forall i | 0 <= i < |parts| ensures StoodFor(o, parts, i) {
        RightMeansStoodFor(w, o, parts, i);
      }
    }
    if forall i :: 0 <= i < |parts| ==> StoodFor(o, parts, i) {
      forall p, x, y | p in w.files && Reachable(w, o, parts, Piece(w.files[p], x, y))
        ensures RangeIsRight(w, o, parts, Piece(w.files[p], x, y))
      {
        StoodForMeansRight(w, o, parts, Piece(w.files[p], x, y));
      }
    }
  }

  /** A target on the very spot of the part. */
  lemma RightMeansOnSpot(w: World, o: Layout, parts: seq<Piece>, i: nat)
    requires Placed(w, o, parts) && AlwaysRight(w, o, parts) && i < |parts|
    ensures exists k :: 0 <= k < |parts| && AtHome(o, parts, k) && Position(o, parts[k]) == Position(o, parts[i])
  {
    var home, pos := o[parts[0].m.path], Position(o, parts[i]);
    var t := OnHeadsMap(w, o, parts, pos.0 - home.0, pos.1 - home.1);
    var k := Nearest(parts, |parts|, (0, 0), t);
    assert Displacement(o, parts[i], t) == (0, 0);
    SquareIsZero(Displacement(o, parts[k], t));
    RangeIsDisplacementIff(w, o, parts, t, k);
  }

  /** A target where the part would be on the first part's map. */
  lemma RightMeansStoodFor(w: World, o: Layout, parts: seq<Piece>, i: nat)
    requires Placed(w, o, parts) && AlwaysRight(w, o, parts) && i < |parts|
    ensures StoodFor(o, parts, i)
  {
    RightMeansOnSpot(w, o, parts, i);
    var t := OnHeadsMap(w, o, parts, parts[i].x, parts[i].y);
    SeemsNearest(parts, i, t);
    RangeIsDisplacementIff(w, o, parts, t, FirstLike(parts, i));
  }

  lemma SeemsNearest(parts: seq<Piece>, i: nat, target: Piece)
    requires i < |parts| && target.x == parts[i].x && target.y == parts[i].y
    ensures Nearest(parts, |parts|, (0, 0), target) == FirstLike(parts, i)
  {
    var j, first := Nearest(parts, |parts|, (0, 0), target), FirstLike(parts, i);
    SquareIsZero(Towards(parts, j, (0, 0), target));
    assert Towards(parts, first, (0, 0), target) == (0, 0);
  }

  lemma StoodForMeansRight(w: World, o: Layout, parts: seq<Piece>, target: Piece)
    requires Placed(w, o, parts) && Reachable(w, o, parts, target)
    requires forall i :: 0 <= i < |parts| ==> StoodFor(o, parts, i)
    ensures RangeIsRight(w, o, parts, target)
  {
    var best := Nearest(parts, |parts|, AdjacentMap(w, parts[0].m, target.m).value, target);
    assert StoodFor(o, parts, best);
    NearestIsFirst(parts, AdjacentMap(w, parts[0].m, target.m).value, target);
    RangeIsDisplacementIff(w, o, parts, target, best);
    forall k | 0 <= k < |parts|
      ensures Square(Displacement(o, parts[best], target)) <= Square(Displacement(o, parts[k], target))
    {
      assert StoodFor(o, parts, k);
      NotNearer(w, o, parts, target, best, k);
    }
  }

  lemma NearestIsFirst(parts: seq<Piece>, d: (int, int), target: Piece)
    requires parts != []
    ensures var best := Nearest(parts, |parts|, d, target); FirstLike(parts, best) == best
  {
    var best := Nearest(parts, |parts|, d, target);
    assert Towards(parts, FirstLike(parts, best), d, target) == Towards(parts, best, d, target);
  }

  lemma NotNearer(w: World, o: Layout, parts: seq<Piece>, target: Piece, best: nat, k: nat)
    requires Placed(w, o, parts) && Reachable(w, o, parts, target) && k < |parts| && StoodFor(o, parts, k)
    requires best == Nearest(parts, |parts|, AdjacentMap(w, parts[0].m, target.m).value, target)
    requires Towards(parts, best, AdjacentMap(w, parts[0].m, target.m).value, target)
          == Displacement(o, parts[best], target)
    ensures Square(Displacement(o, parts[best], target)) <= Square(Displacement(o, parts[k], target))
  {
    var j :| 0 <= j < |parts| && AtHome(o, parts, j) && Position(o, parts[j]) == Position(o, parts[k]);
    RangeIsDisplacementIff(w, o, parts, target, j);
    var from := Towards(parts, j, AdjacentMap(w, parts[0].m, target.m).value, target);
    assert Displacement(o, parts[k], target) == Displacement(o, parts[j], target) == from;
    assert Square(Displacement(o, parts[best], target)) <= Square(from);
  }

  /** No two parts are on one spot, as all have places of their own in the object. */
  ghost predicate SpreadOut(o: Layout, parts: seq<Piece>)
    requires forall k :: 0 <= k < |parts| ==> parts[k].m.path in o
  {
    forall j, k :: 0 <= j < k < |parts| ==> Position(o, parts[j]) != Position(o, parts[k])
  }

  /** So, for an object whose parts are on different spots, exactly when all are on maps with the first
      part's corner. */
  lemma SpreadOutIsRightIff(w: World, o: Layout, parts: seq<Piece>)
    requires Placed(w, o, parts) && SpreadOut(o, parts)
    ensures AlwaysRight(w, o, parts) <==> forall i :: 0 <= i < |parts| ==> AtHome(o, parts, i)
  {
    AlwaysRightIff(w, o, parts);
    if forall i :: 0 <= i < |parts| ==> AtHome(o, parts, i) {
      forall i | 0 <= i < |parts| ensures StoodFor(o, parts, i) {
        assert AtHome(o, parts, i) && AtHome(o, parts, FirstLike(parts, i));
      }
    } else if AlwaysRight(w, o, parts) {
      forall i | 0 <= i < |parts| ensures AtHome(o, parts, i) {
        assert StoodFor(o, parts, i);
      }
    }
  }

  /** The targets on spaces of maps only. */
  ghost predicate RightOnSpaces(w: World, o: Layout, parts: seq<Piece>)
    requires Placed(w, o, parts)
    reads w.files.Values`tilePath, w.files.Values`tileMap
  {
    forall p, x, y :: p in w.files && !OutOfMap(w.files[p], x, y) && Reachable(w, o, parts, Piece(w.files[p], x, y)) ==>
      RangeIsRight(w, o, parts, Piece(w.files[p], x, y))
  }

  /** The same holds for targets on spaces alone, while the parts are on spaces of maps that count as
      adjacent to the first part's: a part on another corner's map goes wrong for a target on its own spot. */
  lemma RightOnSpacesIff(w: World, o: Layout, parts: seq<Piece>)
    requires Placed(w, o, parts) && SpreadOut(o, parts)
    requires forall i :: 0 <= i < |parts| ==>
      Reachable(w, o, parts, parts[i]) && !OutOfMap(parts[i].m, parts[i].x, parts[i].y)
    ensures RightOnSpaces(w, o, parts) <==> forall i :: 0 <= i < |parts| ==> AtHome(o, parts, i)
  {
    SpreadOutIsRightIff(w, o, parts);
    if RightOnSpaces(w, o, parts) {
      forall i | 0 <= i < |parts| ensures AtHome(o, parts, i) {
        assert RangeIsRight(w, o, parts, Piece(w.files[parts[i].m.path], parts[i].x, parts[i].y));
        RightOnOwnSpot(w, o, parts, i);
      }
    }
  }

  lemma RightOnOwnSpot(w: World, o: Layout, parts: seq<Piece>, i: nat)
    requires Placed(w, o, parts) && SpreadOut(o, parts) && i < |parts|
    requires Reachable(w, o, parts, parts[i]) && RangeIsRight(w, o, parts, parts[i])
    ensures AtHome(o, parts, i)
  {
    var t := parts[i];
    var k := Nearest(parts, |parts|, AdjacentMap(w, parts[0].m, t.m).value, t);
    SquareIsZero(Displacement(o, parts[k], t));
    assert Displacement(o, parts[i], t) == (0, 0);
    assert k == i;
    RangeIsDisplacementIff(w, o, parts, t, i);
  }

  /** An object lying across the edge of two maps, with its first part in the last column of the western
      one, and a target in that map's first: the second part is taken to be there already, though it is
      a map's width away, and further than the first. */
  method PartsOnTwoMaps()
    returns (w: World, o: Layout, parts: seq<Piece>, target: Piece, found: bool, dx: int, dy: int, part: Option<nat>)
    ensures Placed(w, o, parts) && SpreadOut(o, parts) && Reachable(w, o, parts, target)
    ensures |parts| == 2 && Position(o, parts[1]) == (Position(o, parts[0]).0 + 1, Position(o, parts[0]).1)
    ensures found && (dx, dy) == (0, 0) && part == Some(1)
    ensures Displacement(o, parts[1], target) == (-20, 0) && Displacement(o, parts[0], target) == (-19, 0)
    ensures !RangeIsRight(w, o, parts, target)
  {
    var west, east;
    w, o, west, east := MakeTwoMaps();
    parts := [Piece(west, 19, 0), Piece(east, 0, 0)];
    target := Piece(west, 0, 0);
    assert Reachable(w, o, parts, target) && AdjacentMap(w, west, west) == Some((0, 0));
    found, dx, dy, part := GetRangeVector(w, parts, target, false);
    SecondSeemsNearest(parts, target);
  }

  lemma SecondSeemsNearest(parts: seq<Piece>, target: Piece)
    requires |parts| == 2 && parts[0].x == 19 && parts[1].x == parts[0].y == parts[1].y == target.x == target.y == 0
    ensures Nearest(parts, 2, (0, 0), target) == 1 && Towards(parts, 1, (0, 0), target) == (0, 0)
  {
    assert Square(Towards(parts, 0, (0, 0), target)) == 361;
  }

  method MakeTwoMaps() returns (w: World, o: Layout, west: MapStruct, east: MapStruct)
    ensures WellNamed(w) && Joined(w) && LaidOut(w, o) && Known(w, west) && Known(w, east)
    ensures o == map[west.path := (0, 0), east.path := (20, 0)] && west.path != east.path
  {
    west := new MapStruct("/west", 20, 20, [None, Some("/east"), None, None]);
    east := new MapStruct("/east", 20, 20, [None, None, None, Some("/west")]);
    w := World(map["/west" := west, "/east" := east], (q, p) => p);
    o := map["/west" := (0, 0), "/east" := (20, 0)];
    assert MapJoined(w, west) && MapJoined(w, east);
    TwoMaps(w, o, west, east);
  }

  lemma TwoMaps(w: World, o: Layout, west: MapStruct, east: MapStruct)
    requires west.path == "/west" && east.path == "/east"
    requires west.width == west.height == east.width == east.height == 20
    requires west.names == [None, Some("/east"), None, None] && east.names == [None, None, None, Some("/west")]
    requires w.files == map["/west" := west, "/east" := east] && forall q, p :: w.target(q, p) == p
    requires o == map["/west" := (0, 0), "/east" := (20, 0)]
    ensures WellNamed(w) && LaidOut(w, o) && Known(w, west) && Known(w, east)
  {}
}

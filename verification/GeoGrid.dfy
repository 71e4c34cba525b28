/**
 The uniform latitude/longitude grid: points bucketed into fixed-size cells, with
 longitude columns wrapped into one canonical window.  Coordinates are reals and
 node ids are unbounded naturals.
 */
module Grid {
  import opened Common
  import opened Ranking

  datatype Point = Point(lat: real, lon: real)

  datatype Cell = Cell(row: int, col: int)

  datatype Box = Box(minLat: real, minLon: real, maxLat: real, maxLon: real)

  /** A node with its distance from the query point. */
  datatype Hit = Hit(id: nat, distance: real)

  const M_PER_DEG_LAT := 111320.0
  const MAX_RADIUS := 20037500.0

  // ---------------------------------------------------------------------------
  // Cells
  // ---------------------------------------------------------------------------

  /** Nearest integer, halves away from zero. */
  function Round(x: real): int {
    if x >= 0.0 then (x + 0.5).Floor else -((0.5 - x).Floor)
  }

  function TotalCols(cellDeg: real): int
    requires cellDeg > 0.0
  {
    Round(360.0 / cellDeg)
  }

  /** The canonical column of a raw column. */
  function Wrap(raw: int, total: int): int {
    if total > 0 then (raw + total / 2) % total - total / 2 else raw
  }

  function CellOf(cellDeg: real, p: Point): Cell
    requires cellDeg > 0.0
  {
    Cell((p.lat / cellDeg).Floor, Wrap((p.lon / cellDeg).Floor, TotalCols(cellDeg)))
  }

  /** How many columns past the first one the scan of a box visits. */
  function Span(cellDeg: real, box: Box): (span: nat)
    requires cellDeg > 0.0
    ensures TotalCols(cellDeg) > 0 ==> span < TotalCols(cellDeg)
  {
    var width := (box.maxLon / cellDeg).Floor - (box.minLon / cellDeg).Floor;
    Max(0, Min(width, Max(TotalCols(cellDeg), 1) - 1))
  }

  /** The canonical column `k` steps past the raw column `first`. */
  function Column(first: int, k: int, total: int): int {
    Wrap(first + k, total)
  }

  /** The canonical columns of the `n` raw columns from `first` on. */
  ghost predicate InColumns(col: int, first: int, n: int, total: int) {
    exists k :: 0 <= k < n && col == Column(first, k, total)
  }

  /** The cells that the scan of a box opens. */
  ghost predicate Scanned(cellDeg: real, box: Box, c: Cell)
    requires cellDeg > 0.0
  {
    && (box.minLat / cellDeg).Floor <= c.row <= (box.maxLat / cellDeg).Floor
    && InColumns(c.col, (box.minLon / cellDeg).Floor, Span(cellDeg, box) + 1, TotalCols(cellDeg))
  }

  lemma WrapPeriodic(raw: int, t: int, total: int)
    requires total > 0
    ensures Wrap(raw + t * total, total) == Wrap(raw, total)
  {
    ModShift(raw + total / 2, t, total);
  }

  lemma ModShift(a: int, t: int, m: int)
    requires m > 0
    ensures (a + t * m) % m == a % m
  {
    var q, q' := a / m, (a + t * m) / m;
    var r, r' := a % m, (a + t * m) % m;
    assert r' - r == (q + t - q') * m by {
      assert a == q * m + r;
      assert a + t * m == q' * m + r';
      assert (q + t - q') * m == q * m + t * m - q' * m;
    }
    SmallMultiple(q + t - q', r' - r, m);
  }

  lemma SmallMultiple(n: int, d: int, m: int)
    requires m > 0 && d == n * m && -m < d < m
    ensures n == 0 && d == 0
  {
    assert n >= 1 ==> n * m >= m;
    assert n <= -1 ==> n * m <= -m;
  }

  lemma Distribute(x: int, y: int, m: int)
    ensures (x - y) * m == x * m - y * m
  {
  }

  /** Fewer than `total` consecutive raw columns wrap to different canonical columns. */
  lemma WrapInjective(a: int, b: int, total: int)
    requires total > 0 && Wrap(a, total) == Wrap(b, total) && -total < a - b < total
    ensures a == b
  {
    var h := total / 2;
    var qa, qb := (a + h) / total, (b + h) / total;
    assert a + h == qa * total + (a + h) % total;
    assert b + h == qb * total + (b + h) % total;
    Distribute(qa, qb, total);
    SmallMultiple(qa - qb, a - b, total);
  }

  lemma FloorMonotone(a: real, b: real, cellDeg: real)
    requires cellDeg > 0.0 && a <= b
    ensures (a / cellDeg).Floor <= (b / cellDeg).Floor
  {
    assert a / cellDeg <= b / cellDeg;
  }

  /** A raw column inside the queried raw range, up to whole turns, is scanned. */
  lemma ColumnScanned(cellDeg: real, box: Box, raw: int, turns: int)
    requires cellDeg > 0.0 && TotalCols(cellDeg) > 0
    requires (box.minLon / cellDeg).Floor <= raw + turns * TotalCols(cellDeg) <= (box.maxLon / cellDeg).Floor
    ensures InColumns(Wrap(raw, TotalCols(cellDeg)), (box.minLon / cellDeg).Floor,
                      Span(cellDeg, box) + 1, TotalCols(cellDeg))
  {
    var total := TotalCols(cellDeg);
    var first := (box.minLon / cellDeg).Floor;
    var offset := raw + turns * total - first;
    var k := offset % total;
    var q := offset / total;
    assert offset == q * total + k;
    assert k <= Span(cellDeg, box) by {
      if q == 0 {
        assert k == offset;
      } else {
        assert q >= 1;
        assert offset >= total by { assert q * total >= total; }
      }
    }
    assert first + k + (q - turns) * total == raw by {
      assert (q - turns) * total == q * total - turns * total;
    }
    WrapPeriodic(first + k, q - turns, total);
    assert Wrap(raw, total) == Column(first, k, total);
  }

  // ---------------------------------------------------------------------------
  // What a scan covers
  // ---------------------------------------------------------------------------

  ghost predicate CellDividesGlobe(cellDeg: real)
    requires cellDeg > 0.0
  {
    TotalCols(cellDeg) > 0 && TotalCols(cellDeg) as real * cellDeg == 360.0
  }

  /** The point has a latitude in range and, up to whole turns, a longitude in range. */
  ghost predicate InBand(box: Box, p: Point) {
    && box.minLat <= p.lat <= box.maxLat
    && exists turns: int :: box.minLon <= Turned(p.lon, turns) <= box.maxLon
  }

  function Turned(lon: real, turns: int): real {
    lon + 360.0 * turns as real
  }

  lemma TurnedColumn(cellDeg: real, lon: real, turns: int)
    requires cellDeg > 0.0 && CellDividesGlobe(cellDeg)
    ensures (Turned(lon, turns) / cellDeg).Floor == (lon / cellDeg).Floor + turns * TotalCols(cellDeg)
  {
    var total := TotalCols(cellDeg);
    var n := turns * total;
    assert 360.0 * turns as real == n as real * cellDeg by {
      assert n as real == turns as real * total as real;
      assert n as real * cellDeg == turns as real * (total as real * cellDeg);
    }
    assert Turned(lon, turns) / cellDeg == lon / cellDeg + n as real by {
      assert (lon / cellDeg + n as real) * cellDeg == lon / cellDeg * cellDeg + n as real * cellDeg;
    }
  }

  /** With a cell size dividing the globe, the scan reaches every point of the band, across the antimeridian. */
  lemma BandScanned(cellDeg: real, box: Box, p: Point)
    requires cellDeg > 0.0 && CellDividesGlobe(cellDeg) && InBand(box, p)
    ensures Scanned(cellDeg, box, CellOf(cellDeg, p))
  {
    var turns: int :| box.minLon <= Turned(p.lon, turns) <= box.maxLon;
    FloorMonotone(box.minLat, p.lat, cellDeg);
    FloorMonotone(p.lat, box.maxLat, cellDeg);
    FloorMonotone(box.minLon, Turned(p.lon, turns), cellDeg);
    FloorMonotone(Turned(p.lon, turns), box.maxLon, cellDeg);
    TurnedColumn(cellDeg, p.lon, turns);
    ColumnScanned(cellDeg, box, (p.lon / cellDeg).Floor, turns);
  }

  predicate Inside(box: Box, p: Point) {
    box.minLat <= p.lat <= box.maxLat && box.minLon <= p.lon <= box.maxLon
  }

  /** Without wrapping, any cell size with at least one column will do. */
  lemma InsideScanned(cellDeg: real, box: Box, p: Point)
    requires cellDeg > 0.0 && TotalCols(cellDeg) > 0 && Inside(box, p)
    ensures Scanned(cellDeg, box, CellOf(cellDeg, p))
  {
    FloorMonotone(box.minLat, p.lat, cellDeg);
    FloorMonotone(p.lat, box.maxLat, cellDeg);
    FloorMonotone(box.minLon, p.lon, cellDeg);
    FloorMonotone(p.lon, box.maxLon, cellDeg);
    ColumnScanned(cellDeg, box, (p.lon / cellDeg).Floor, 0);
  }

  /** A cell size that leaves no column at all loses points inside the box. */
  lemma NoColumnLosesPoints(cellDeg: real)
    requires cellDeg > 0.0 && TotalCols(cellDeg) == 0
    ensures Inside(Box(0.0, -20.0, 0.0, 20.0), Point(0.0, 10.0))
    ensures !Scanned(cellDeg, Box(0.0, -20.0, 0.0, 20.0), CellOf(cellDeg, Point(0.0, 10.0)))
  {
    assert 360.0 / cellDeg < 0.5;
    assert 0.0 <= 10.0 / cellDeg < 1.0;
    assert -1.0 <= -20.0 / cellDeg < 0.0;
    var box := Box(0.0, -20.0, 0.0, 20.0);
    assert Span(cellDeg, box) == 0;
    assert !InColumns(0, -1, 1, 0) by { assert Column(-1, 0, 0) == -1; }
  }

  // ---------------------------------------------------------------------------
  // The index
  // ---------------------------------------------------------------------------

  /** The live points, by node id. */
  type Points = map<nat, Point>

  function LivePoints(coords: seq<Option<Point>>): Points {
    map id: nat | id < |coords| && coords[id].Some? :: coords[id].value
  }

  /** The cell of each live node. */
  function Homes(cellDeg: real, points: Points): map<nat, Cell>
    requires cellDeg > 0.0
  {
    map id | id in points :: CellOf(cellDeg, points[id])
  }

  /** Every live node sits once, in the bucket of its own cell; no bucket is empty or holds anything else. */
  ghost predicate Bucketed(cells: map<Cell, seq<nat>>, homes: map<nat, Cell>) {
    && (forall id | id in homes :: homes[id] in cells && id in cells[homes[id]])
    && (forall c | c in cells :: cells[c] != [] && NoDuplicates(cells[c]))
    && (forall c, id | c in cells && id in cells[c] :: id in homes && homes[id] == c)
  }

  lemma BucketedInsert(cells: map<Cell, seq<nat>>, homes: map<nat, Cell>, id: nat, c: Cell)
    requires Bucketed(cells, homes) && id !in homes
    ensures Bucketed(cells[c := (if c in cells then cells[c] else []) + [id]], homes[id := c])
  {
    var bucket := if c in cells then cells[c] else [];
    assert forall i | 0 <= i < |bucket| :: bucket[i] in bucket;
  }

  lemma BucketedRemove(cells: map<Cell, seq<nat>>, homes: map<nat, Cell>, id: nat, bucket: seq<nat>)
    requires Bucketed(cells, homes) && id in homes
    requires forall x :: x in bucket <==> x in cells[homes[id]] && x != id
    requires NoDuplicates(bucket)
    ensures Bucketed(if bucket == [] then cells - {homes[id]} else cells[homes[id] := bucket], homes - {id})
  {
    assert bucket == [] ==> forall x | x in homes && x != id :: x !in bucket;
  }

  function Without(bucket: seq<nat>, id: nat): seq<nat> {
    if bucket == [] then [] else
    (if bucket[0] == id then [] else [bucket[0]]) + Without(bucket[1..], id)
  }

  lemma {:induction false} WithoutContents(bucket: seq<nat>, id: nat)
    ensures forall x :: x in Without(bucket, id) <==> x in bucket && x != id
    ensures NoDuplicates(bucket) ==> NoDuplicates(Without(bucket, id))
  {
    if bucket != [] {
      WithoutContents(bucket[1..], id);
      assert bucket == [bucket[0]] + bucket[1..];
      var rest := Without(bucket[1..], id);
      assert forall i | 0 <= i < |rest| :: rest[i] in rest;
    }
  }

  /** What the grid keeps: `points` are the live coordinates, counted by `live` and bucketed by cell. */
  ghost predicate Sound(cellDeg: real, cells: map<Cell, seq<nat>>, coords: seq<Option<Point>>, live: nat,
      points: Points) {
    && cellDeg >= 0.001
    && points == LivePoints(coords)
    && Bucketed(cells, Homes(cellDeg, points))
    && live == |points|
  }

  lemma SoundInsert(cellDeg: real, cells: map<Cell, seq<nat>>, coords: seq<Option<Point>>, live: nat, points: Points,
      p: Point)
    requires Sound(cellDeg, cells, coords, live, points)
    ensures var c := CellOf(cellDeg, p);
            var bucket := if c in cells then cells[c] else [];
            Sound(cellDeg, cells[c := bucket + [|coords|]], coords + [Some(p)], live + 1, points[|coords| := p])
  {
    hide CellOf;
    var c := CellOf(cellDeg, p);
    assert LivePoints(coords + [Some(p)]) == points[|coords| := p];
    assert Homes(cellDeg, points[|coords| := p]) == Homes(cellDeg, points)[|coords| := c];
    BucketedInsert(cells, Homes(cellDeg, points), |coords|, c);
  }

  function Dropped(cells: map<Cell, seq<nat>>, c: Cell, id: nat): map<Cell, seq<nat>>
    requires c in cells
  {
    var bucket := Without(cells[c], id);
    if bucket == [] then cells - {c} else cells[c := bucket]
  }

  lemma SoundRemove(cellDeg: real, cells: map<Cell, seq<nat>>, coords: seq<Option<Point>>, live: nat, points: Points,
      id: nat)
    requires Sound(cellDeg, cells, coords, live, points) && id in points
    ensures live > 0 && id < |coords| && CellOf(cellDeg, points[id]) in cells
    ensures Sound(cellDeg, Dropped(cells, CellOf(cellDeg, points[id]), id), coords[id := None], live - 1, points - {id})
  {
    hide CellOf;
    var homes := Homes(cellDeg, points);
    var c := CellOf(cellDeg, points[id]);
    assert homes[id] == c;
    WithoutContents(cells[c], id);
    BucketedRemove(cells, homes, id, Without(cells[c], id));
    LiveWithout(coords, id);
    HomesWithout(cellDeg, points, id);
    hide Bucketed, Homes, LivePoints, Without;
    assert points.Keys == (points - {id}).Keys + {id};
  }

  lemma LiveWithout(coords: seq<Option<Point>>, id: nat)
    requires id < |coords|
    ensures LivePoints(coords[id := None]) == LivePoints(coords) - {id}
  {
  }

  lemma HomesWithout(cellDeg: real, points: Points, id: nat)
    requires cellDeg > 0.0
    ensures Homes(cellDeg, points - {id}) == Homes(cellDeg, points) - {id}
  {
    hide CellOf;
  }

  lemma SoundSize(cellDeg: real, cells: map<Cell, seq<nat>>, coords: seq<Option<Point>>, live: nat, points: Points)
    requires Sound(cellDeg, cells, coords, live, points)
    ensures cellDeg > 0.0 && live == |points|
  {
  }

  class GridIndex {
    const cellDeg: real
    var cells: map<Cell, seq<nat>>
    var coords: seq<Option<Point>>
    var live: nat
    ghost var points: Points  // the live points, by node id

    ghost predicate Valid()
      reads this
    {
      Sound(cellDeg, cells, coords, live, points)
    }

    constructor (cell: real)
      ensures Valid() && points == map[] && coords == []
      ensures cellDeg == if cell >= 0.001 then cell else 0.001
    {
      cellDeg := if cell >= 0.001 then cell else 0.001;
      cells := map[];
      coords := [];
      live := 0;
      points := map[];
    }

    function Coord(id: nat): (p: Option<Point>)
      reads this
      ensures Valid() ==> (p.Some? <==> id in points)
      ensures Valid() && p.Some? ==> p.value == points[id]
    {
      if id < |coords| then coords[id] else None
    }

    method Insert(lat: real, lon: real) returns (id: nat)
      requires Valid()
      modifies this
      ensures Valid()
      ensures id == old(|coords|) && |coords| == id + 1
      ensures id !in old(points) && points == old(points)[id := Point(lat, lon)]
    {
      id := |coords|;
      assert id !in points;
      var p := Point(lat, lon);
      SoundInsert(cellDeg, cells, coords, live, points, p);
      assert cellDeg > 0.0;
      hide Sound;
      var c := CellOf(cellDeg, p);
      var bucket := if c in cells then cells[c] else [];
      cells := cells[c := bucket + [id]];
      coords := coords + [Some(p)];
      live := live + 1;
      points := points[id := p];
    }

    method Remove(id: nat)
      requires Valid()
      modifies this
      ensures Valid() && |coords| == old(|coords|)
      ensures points == old(points) - {id}
    {
      if id < |coords| && coords[id].Some? {
        assert id in points && coords[id].value == points[id] && cellDeg > 0.0;
        SoundRemove(cellDeg, cells, coords, live, points, id);
        hide Sound;
        cells := Dropped(cells, CellOf(cellDeg, coords[id].value), id);
        coords := coords[id := None];
        live := live - 1;
        points := points - {id};
      } else {
        assert id !in points;
      }
    }

    /** Visits the buckets of one row of cells, column by column. */
    method ScanRow(row: int, first: int, span: nat, total: int) returns (ids: seq<nat>)
      requires Valid() && (total > 0 ==> span < total)
      ensures NoDuplicates(ids)
      ensures forall id :: id in ids <==>
                           id in Homes(cellDeg, points)
                               && InRow(Homes(cellDeg, points)[id], row, first, span + 1, total)
    {
      ids := [];
      var k := 0;
      ghost var homes := Homes(cellDeg, points);
      while k <= span
        invariant k <= span + 1
        invariant NoDuplicates(ids)
        invariant forall id :: id in ids <==> id in homes && InRow(homes[id], row, first, k, total)
      {
        var c := Cell(row, Column(first, k, total));
        NewColumn(row, first, k, total);
        if c in cells {
          var bucket := VisitBucket(c);
          AppendBucket(homes, ids, bucket, c, row, first, k, total);
          ids := ids + bucket;
        } else {
          AppendBucket(homes, ids, [], c, row, first, k, total);
        }
        k := k + 1;
      }
    }

    /** Visits the nodes of one bucket that still have coordinates, which is all of them. */
    method VisitBucket(c: Cell) returns (ids: seq<nat>)
      requires Valid() && c in cells
      ensures ids == cells[c]
      ensures NoDuplicates(ids)
      ensures forall id :: id in ids <==> id in Homes(cellDeg, points) && Homes(cellDeg, points)[id] == c
    {
      var bucket := cells[c];
      ids := [];
      for i := 0 to |bucket|
        invariant ids == bucket[..i]
      {
        assert bucket[i] in Homes(cellDeg, points);
        if Coord(bucket[i]).Some? {
          ids := ids + [bucket[i]];
        }
      }
    }

    /** The callback sequence of one scan: every live node of a scanned cell, once. */
    method ScanCells(box: Box) returns (ids: seq<nat>)
      requires Valid()
      ensures NoDuplicates(ids)
      ensures Elements(ids) == ScannedIds(cellDeg, points, box)
    {
      var total := TotalCols(cellDeg);
      var row, lastRow := (box.minLat / cellDeg).Floor, (box.maxLat / cellDeg).Floor;
      var first, span := (box.minLon / cellDeg).Floor, Span(cellDeg, box);
      ghost var homes := Homes(cellDeg, points);
      ghost var firstRow := row;
      ids := [];
      while row <= lastRow
        invariant firstRow <= row && (row <= lastRow || row == lastRow + 1 || row == firstRow)
        invariant NoDuplicates(ids)
        invariant forall id :: id in ids <==>
                               && id in homes && firstRow <= homes[id].row < row
                               && InColumns(homes[id].col, first, span + 1, total)
      {
        var next := ScanRow(row, first, span, total);
        Disjoint(ids, next);
        ids := ids + next;
        row := row + 1;
      }
      assert forall id :: id in ids <==> id in homes && Scanned(cellDeg, box, homes[id]);
    }

    method WithinRadius(q: Point, radius: real, geo: Geometry) returns (hits: seq<Hit>)
      requires Valid()
      ensures NoDuplicates(hits)
      ensures Elements(hits) == RadiusHits(cellDeg, points, q, radius, geo)
    {
      var ids := ScanCells(DiskBox(q, radius, geo.cosDeg));
      hits := [];
      for i := 0 to |ids|
        invariant forall h :: h in hits <==>
                              h.id in ids[..i] && h.id in points && h == HitOf(geo, q, points, h.id)
                                  && h.distance <= radius
        invariant NoDuplicates(hits)
      {
        assert ids[i] in Elements(ids);
        var d := geo.distance(q, Coord(ids[i]).value);
        assert Hit(ids[i], d) == HitOf(geo, q, points, ids[i]);
        assert ids[..i + 1] == ids[..i] + [ids[i]];
        assert ids[i] !in ids[..i];
        if d <= radius {
          assert Hit(ids[i], d) !in hits;
          hits := hits + [Hit(ids[i], d)];
        }
      }
      assert ids[..|ids|] == ids;
      assert forall id :: id in ids <==> id in ScannedIds(cellDeg, points, DiskBox(q, radius, geo.cosDeg));
    }

    /** A box whose west edge lies east of its east edge is split at the antimeridian. */
    method WithinBBox(box: Box) returns (ids: seq<nat>)
      requires Valid() && SplitTerminates(box.minLon, box.maxLon)
      ensures NoDuplicates(ids)
      ensures Elements(ids) <= BoxIds(points, box)
      ensures TotalCols(cellDeg) > 0 ==> Elements(ids) == BoxIds(points, box)
      decreases box.minLon > box.maxLon
    {
      if box.minLon > box.maxLon {
        var west := WithinBBox(box.(maxLon := 180.0));
        var east := WithinBBox(box.(minLon := -180.0));
        forall id | id in west ensures id !in east {
          assert id in Elements(west) && (id in east ==> id in Elements(east));
        }
        Disjoint(west, east);
        ids := west + east;
        assert Elements(ids) == Elements(west) + Elements(east);
      } else {
        var scanned := ScanCells(box);
        ids := [];
        for i := 0 to |scanned|
          invariant forall id :: id in ids <==> id in scanned[..i] && id in points && Inside(box, points[id])
          invariant NoDuplicates(ids)
        {
          assert scanned[i] in Elements(scanned);
          assert scanned[..i + 1] == scanned[..i] + [scanned[i]];
          assert scanned[i] !in scanned[..i];
          var p := Coord(scanned[i]).value;
          if p.lat >= box.minLat && p.lat <= box.maxLat && p.lon >= box.minLon && p.lon <= box.maxLon {
            ids := ids + [scanned[i]];
          }
        }
        assert scanned[..|scanned|] == scanned;
        if TotalCols(cellDeg) > 0 {
          forall id | id in points && Inside(box, points[id]) ensures id in scanned {
            InsideScanned(cellDeg, box, points[id]);
            assert id in Elements(scanned);
          }
        }
      }
    }

    /** Widens the radius until it encloses `k` points or reaches the cap, then ranks and truncates. */
    method Nearest(q: Point, k: nat, geo: Geometry) returns (hits: seq<Hit>)
      requires Valid()
      ensures hits == NearestSpec(cellDeg, points, q, k, geo)
    {
      SoundSize(cellDeg, cells, coords, live, points);
      NearestStart(cellDeg, points, q, k, geo);
      hide *;
      if k == 0 || live == 0 {
        return [];
      }
      var radius := StartRadius(cellDeg);
      while true
        invariant radius >= 1000.0
        invariant NearestFrom(cellDeg, points, q, k, geo, radius) == NearestSpec(cellDeg, points, q, k, geo)
        decreases MAX_RADIUS - radius
      {
        hits := WithinRadius(q, radius, geo);
        var wider := radius * 2.0;
        NearestStep(cellDeg, points, q, k, geo, radius, wider, hits);
        if |hits| >= k || radius >= MAX_RADIUS {
          hits := SortBy(Closer, hits);
          hits := hits[..if k <= |hits| then k else |hits|];
          return;
        }
        radius := wider;
      }
    }
  }

  ghost predicate InRow(c: Cell, row: int, first: int, n: int, total: int) {
    c.row == row && InColumns(c.col, first, n, total)
  }

  ghost function ScannedIds(cellDeg: real, points: Points, box: Box): set<nat>
    requires cellDeg > 0.0
  {
    set id | id in points && Scanned(cellDeg, box, CellOf(cellDeg, points[id]))
  }

  lemma Disjoint(a: seq<nat>, b: seq<nat>)
    requires NoDuplicates(a) && NoDuplicates(b)
    requires forall x | x in a :: x !in b
    ensures NoDuplicates(a + b)
  {
    assert forall i | 0 <= i < |a| :: a[i] in a;
    assert forall i | 0 <= i < |b| :: b[i] in b;
  }

  lemma NewColumn(row: int, first: int, k: nat, total: int)
    requires total > 0 ==> k < total
    ensures !InColumns(Column(first, k, total), first, k, total)
    ensures forall col ::
        InColumns(col, first, k + 1, total) <==> InColumns(col, first, k, total) || col == Column(first, k, total)
  {
    forall j | 0 <= j < k ensures Column(first, j, total) != Column(first, k, total) {
      if total > 0 && Column(first, j, total) == Column(first, k, total) {
        WrapInjective(first + j, first + k, total);
      }
    }
  }

  lemma AppendBucket(homes: map<nat, Cell>, ids: seq<nat>, bucket: seq<nat>, c: Cell, row: int, first: int, k: nat,
      total: int)
    requires total > 0 ==> k < total
    requires c == Cell(row, Column(first, k, total))
    requires NoDuplicates(ids) && NoDuplicates(bucket)
    requires forall id :: id in ids <==> id in homes && InRow(homes[id], row, first, k, total)
    requires forall id :: id in bucket <==> id in homes && homes[id] == c
    ensures NoDuplicates(ids + bucket)
    ensures forall id :: id in ids + bucket <==> id in homes && InRow(homes[id], row, first, k + 1, total)
  {
    NewColumn(row, first, k, total);
    Disjoint(ids, bucket);
  }

  // ---------------------------------------------------------------------------
  // Queries
  // ---------------------------------------------------------------------------

  /** The trigonometry the queries rely on: great-circle distance, and cosine of an angle in degrees. */
  datatype Geometry = Geometry(distance: (Point, Point) -> real, cosDeg: real -> real)

  function Abs(x: real): real {
    if x >= 0.0 then x else -x
  }

  function MinReal(a: real, b: real): real {
    if a <= b then a else b
  }

  function MaxReal(a: real, b: real): real {
    if a >= b then a else b
  }

  /** The longitude half-width of the band: the whole globe when a pole is in reach. */
  function HalfWidth(q: Point, radius: real, cosDeg: real -> real): real {
    var dlat := radius / M_PER_DEG_LAT;
    var reachesPole := q.lat + dlat >= 90.0 || q.lat - dlat <= -90.0;
    var latExtreme := MinReal(MaxReal(Abs(q.lat + dlat), Abs(q.lat - dlat)), 90.0);
    var cosExtreme := cosDeg(latExtreme);
    if reachesPole || cosExtreme < 0.000000001 then 180.0
    else MinReal(radius / (M_PER_DEG_LAT * cosExtreme), 180.0)
  }

  /** The band scanned for a disk around `q`. */
  function DiskBox(q: Point, radius: real, cosDeg: real -> real): Box {
    var dlat, dlon := radius / M_PER_DEG_LAT, HalfWidth(q, radius, cosDeg);
    Box(q.lat - dlat, q.lon - dlon, q.lat + dlat, q.lon + dlon)
  }

  function HitOf(geo: Geometry, q: Point, points: Points, id: nat): Hit
    requires id in points
  {
    Hit(id, geo.distance(q, points[id]))
  }

  ghost function AllHits(points: Points, q: Point, geo: Geometry): set<Hit> {
    set id | id in points :: HitOf(geo, q, points, id)
  }

  /** What a radius query returns: the scanned points at most `radius` away. */
  ghost function RadiusHits(cellDeg: real, points: Points, q: Point, radius: real, geo: Geometry): set<Hit>
    requires cellDeg > 0.0
  {
    set id | && id in ScannedIds(cellDeg, points, DiskBox(q, radius, geo.cosDeg))
             && geo.distance(q, points[id]) <= radius
           :: HitOf(geo, q, points, id)
  }

  predicate Closer(a: Hit, b: Hit) {
    a.distance < b.distance || (a.distance == b.distance && a.id < b.id)
  }

  lemma HitsOrdered(s: set<Hit>)
    ensures StrictOrderOn(Closer, s)
  {
  }

  function StartRadius(cellDeg: real): real {
    MaxReal(cellDeg * M_PER_DEG_LAT, 1000.0)
  }

  /** The `k` nearest found by widening from `radius`. */
  ghost function NearestFrom(cellDeg: real, points: Points, q: Point, k: nat, geo: Geometry, radius: real): seq<Hit>
    requires cellDeg > 0.0 && radius >= 1000.0
    decreases MAX_RADIUS - radius
  {
    var hits := RadiusHits(cellDeg, points, q, radius, geo);
    HitsOrdered(hits);
    if |hits| >= k || radius >= MAX_RADIUS
    then Ranked(Closer, hits)[..Min(k, |hits|)]
    else NearestFrom(cellDeg, points, q, k, geo, radius * 2.0)
  }

  lemma NearestStep(cellDeg: real, points: Points, q: Point, k: nat, geo: Geometry,
      radius: real, wider: real, hits: seq<Hit>)
    requires cellDeg > 0.0 && radius >= 1000.0 && wider == radius * 2.0
    requires NoDuplicates(hits) && Elements(hits) == RadiusHits(cellDeg, points, q, radius, geo)
    ensures NearestFrom(cellDeg, points, q, k, geo, radius)
            == if |hits| >= k || radius >= MAX_RADIUS then SortBy(Closer, hits)[..if k <= |hits| then k else |hits|]
               else NearestFrom(cellDeg, points, q, k, geo, wider)
  {
    HitsOrdered(Elements(hits));
    SortByRanks(Closer, hits);
    hide RadiusHits, StrictOrderOn, IsRanking, NoDuplicates, Elements, SortBy, NearestFrom;
    NearestAt(cellDeg, points, q, k, geo, radius, Elements(hits), wider);
    if |hits| < k {
      assert SortBy(Closer, hits)[..|hits|] == SortBy(Closer, hits);
    }
  }

  ghost function NearestSpec(cellDeg: real, points: Points, q: Point, k: nat, geo: Geometry): seq<Hit>
    requires cellDeg > 0.0
  {
    if k == 0 || points == map[] then [] else NearestFrom(cellDeg, points, q, k, geo, StartRadius(cellDeg))
  }

  /** Some of the hits, nearest first, each once. */
  ghost predicate IsSelection(hits: seq<Hit>, all: set<Hit>, k: nat) {
    |hits| <= k && Ascending(Closer, hits) && forall h | h in hits :: h in all
  }

  lemma RankedPrefix(r: seq<Hit>, found: set<Hit>, all: set<Hit>, k: nat)
    requires IsRanking(Closer, r, found) && found <= all
    ensures IsSelection(r[..Min(k, |r|)], all, k)
  {
    hide Closer;
    assert forall h | h in r :: h in Elements(r);
  }

  lemma SelectionOf(found: set<Hit>, all: set<Hit>, k: nat)
    requires found <= all
    ensures StrictOrderOn(Closer, found) && IsSelection(Ranked(Closer, found)[..Min(k, |found|)], all, k)
  {
    HitsOrdered(found);
    hide StrictOrderOn, IsRanking, IsSelection, Closer;
    RankedPrefix(Ranked(Closer, found), found, all, k);
  }

  lemma RadiusHitsAreHits(cellDeg: real, points: Points, q: Point, geo: Geometry, radius: real)
    requires cellDeg > 0.0
    ensures RadiusHits(cellDeg, points, q, radius, geo) <= AllHits(points, q, geo)
  {
  }

  lemma {:induction false} NearestFromSelects(cellDeg: real, points: Points, q: Point, k: nat, geo: Geometry,
      radius: real)
    requires cellDeg > 0.0 && radius >= 1000.0
    ensures IsSelection(NearestFrom(cellDeg, points, q, k, geo, radius), AllHits(points, q, geo), k)
    decreases MAX_RADIUS - radius
  {
    var hits, wider := RadiusHits(cellDeg, points, q, radius, geo), radius * 2.0;
    RadiusHitsAreHits(cellDeg, points, q, geo, radius);
    hide RadiusHits, AllHits, IsSelection, StrictOrderOn, IsRanking, NearestFrom;
    SelectionOf(hits, AllHits(points, q, geo), k);
    NearestAt(cellDeg, points, q, k, geo, radius, hits, wider);
    if |hits| < k && radius < MAX_RADIUS {
      NearestFromSelects(cellDeg, points, q, k, geo, wider);
    } else if |hits| < k {
      assert Ranked(Closer, hits)[..|hits|] == Ranked(Closer, hits);
    }
  }

  /** Whatever it misses, nearest-k returns at most `k` live points with their distances, nearest first, each once. */
  lemma NearestSelects(cellDeg: real, points: Points, q: Point, k: nat, geo: Geometry)
    requires cellDeg > 0.0
    ensures IsSelection(NearestSpec(cellDeg, points, q, k, geo), AllHits(points, q, geo), k)
  {
    NearestFromSelects(cellDeg, points, q, k, geo, StartRadius(cellDeg));
  }

  lemma NearestStart(cellDeg: real, points: Points, q: Point, k: nat, geo: Geometry)
    requires cellDeg > 0.0
    ensures StartRadius(cellDeg) >= 1000.0
    ensures NearestSpec(cellDeg, points, q, k, geo)
            == if k == 0 || |points| == 0 then [] else NearestFrom(cellDeg, points, q, k, geo, StartRadius(cellDeg))
  {
    assert |points| == 0 <==> points == map[];
  }

  /** The points of a box, its two halves when it crosses the antimeridian. */
  ghost function BoxIds(points: Points, box: Box): set<nat> {
    if box.minLon > box.maxLon
    then (set id | id in points && Inside(box.(maxLon := 180.0), points[id]))
         + (set id | id in points && Inside(box.(minLon := -180.0), points[id]))
    else set id | id in points && Inside(box, points[id])
  }

  /** When the antimeridian split comes to an end. */
  predicate SplitTerminates(minLon: real, maxLon: real) {
    minLon <= maxLon || (minLon <= 180.0 && -180.0 <= maxLon)
  }

  /** The split finishes within `depth` nested calls. */
  predicate SplitWithin(minLon: real, maxLon: real, depth: nat)
    decreases depth
  {
    minLon <= maxLon ||
    (depth > 0 && SplitWithin(minLon, 180.0, depth - 1) && SplitWithin(-180.0, maxLon, depth - 1))
  }

  ghost predicate SplitFinishes(minLon: real, maxLon: real) {
    exists depth: nat :: SplitWithin(minLon, maxLon, depth)
  }

  lemma {:induction false} SplitStuck(minLon: real, maxLon: real, depth: nat)
    requires !SplitTerminates(minLon, maxLon)
    ensures !SplitWithin(minLon, maxLon, depth)
    decreases depth
  {
    if depth > 0 {
      if minLon > 180.0 {
        SplitStuck(minLon, 180.0, depth - 1);
      } else {
        SplitStuck(-180.0, maxLon, depth - 1);
      }
    }
  }

  /** The split ends exactly on the stated edges, and then one level of recursion is enough. */
  lemma SplitTerminatesExactly(minLon: real, maxLon: real)
    ensures SplitTerminates(minLon, maxLon) <==> SplitFinishes(minLon, maxLon)
    ensures SplitTerminates(minLon, maxLon) ==> SplitWithin(minLon, maxLon, 1)
  {
    if SplitTerminates(minLon, maxLon) {
      SplitOnce(minLon, maxLon, 1);
      assert SplitFinishes(minLon, maxLon);
    } else {
      forall depth: nat ensures !SplitWithin(minLon, maxLon, depth) {
        SplitStuck(minLon, maxLon, depth);
      }
    }
  }

  lemma SplitOnce(minLon: real, maxLon: real, depth: nat)
    requires SplitTerminates(minLon, maxLon) && depth == 1
    ensures SplitWithin(minLon, maxLon, depth)
  {
    assert -180.0 <= maxLon ==> SplitWithin(-180.0, maxLon, depth - 1);
  }

  // ---------------------------------------------------------------------------
  // Exactness
  // ---------------------------------------------------------------------------

  /** Every point within the radius lies in a scanned cell. */
  ghost predicate ScanCovers(cellDeg: real, points: Points, q: Point, radius: real, geo: Geometry)
    requires cellDeg > 0.0
  {
    forall id | id in points && geo.distance(q, points[id]) <= radius ::
      Scanned(cellDeg, DiskBox(q, radius, geo.cosDeg), CellOf(cellDeg, points[id]))
  }

  /** The scanned band contains the disk. */
  ghost predicate BandCovers(points: Points, q: Point, radius: real, geo: Geometry) {
    forall id | id in points && geo.distance(q, points[id]) <= radius ::
      InBand(DiskBox(q, radius, geo.cosDeg), points[id])
  }

  /** From a radius on, no disk the search tries has an unscanned point, and the last disk holds every point. */
  ghost predicate CoveredFrom(cellDeg: real, points: Points, q: Point, geo: Geometry, radius: real)
    requires cellDeg > 0.0 && radius >= 1000.0
    decreases MAX_RADIUS - radius
  {
    && ScanCovers(cellDeg, points, q, radius, geo)
    && if radius >= MAX_RADIUS then forall id | id in points :: geo.distance(q, points[id]) <= radius
       else CoveredFrom(cellDeg, points, q, geo, radius * 2.0)
  }

  /** A hypothesis on a collection and a query under which nearest-k is exact. */
  ghost predicate Covered(cellDeg: real, points: Points, q: Point, geo: Geometry)
    requires cellDeg > 0.0
  {
    CoveredFrom(cellDeg, points, q, geo, StartRadius(cellDeg))
  }

  lemma BandCoversSuffices(cellDeg: real, points: Points, q: Point, radius: real, geo: Geometry)
    requires cellDeg > 0.0 && CellDividesGlobe(cellDeg) && BandCovers(points, q, radius, geo)
    ensures ScanCovers(cellDeg, points, q, radius, geo)
  {
    forall id | id in points && geo.distance(q, points[id]) <= radius
      ensures Scanned(cellDeg, DiskBox(q, radius, geo.cosDeg), CellOf(cellDeg, points[id]))
    {
      BandScanned(cellDeg, DiskBox(q, radius, geo.cosDeg), points[id]);
    }
  }

  /** A radius query is complete exactly when the scan covers the disk. */
  lemma RadiusExact(cellDeg: real, points: Points, q: Point, radius: real, geo: Geometry)
    requires cellDeg > 0.0
    ensures RadiusHits(cellDeg, points, q, radius, geo) <= AllHits(points, q, geo)
    ensures ScanCovers(cellDeg, points, q, radius, geo) <==>
            RadiusHits(cellDeg, points, q, radius, geo) == set h | h in AllHits(points, q, geo) && h.distance <= radius
  {
    var hits, disk := RadiusHits(cellDeg, points, q, radius, geo), set h | h in AllHits(points, q, geo)
        && h.distance <= radius;
    var box := DiskBox(q, radius, geo.cosDeg);
    forall id | id in points && geo.distance(q, points[id]) <= radius
      ensures HitOf(geo, q, points, id) in disk
      ensures HitOf(geo, q, points, id) in hits <==> Scanned(cellDeg, box, CellOf(cellDeg, points[id]))
    {
      assert HitOf(geo, q, points, id) in AllHits(points, q, geo);
    }
  }

  lemma {:induction false} AllHitsCount(points: Points, q: Point, geo: Geometry)
    ensures |AllHits(points, q, geo)| == |points|
    decreases |points|
  {
    if points != map[] {
      var id :| id in points;
      var rest := points - {id};
      AllHitsCount(rest, q, geo);
      assert points.Keys == rest.Keys + {id};
      assert forall x | x in rest :: HitOf(geo, q, rest, x) == HitOf(geo, q, points, x);
      assert AllHits(points, q, geo) == AllHits(rest, q, geo) + {HitOf(geo, q, points, id)};
    }
  }

  /** The whole collection in (distance, node id) order. */
  ghost function FullRanking(points: Points, q: Point, geo: Geometry): (r: seq<Hit>)
    ensures |r| == |points|
  {
    HitsOrdered(AllHits(points, q, geo));
    AllHitsCount(points, q, geo);
    Ranked(Closer, AllHits(points, q, geo))
  }

  /** The first `min(k, live)` points of the full ranking. */
  ghost function Wanted(points: Points, q: Point, k: nat, geo: Geometry): seq<Hit> {
    FullRanking(points, q, geo)[..Min(k, |points|)]
  }

  // ---------------------------------------------------------------------------
  // When nearest-k is exact
  // ---------------------------------------------------------------------------

  /**
   What the search finds as it widens from `radius`, having found at most `seen` points before:
   whenever a disk finds more points than every smaller one, no point it misses is closer than one
   it finds; and the last disk finds every point.
   */
  ghost predicate FoundInOrder(cellDeg: real, points: Points, q: Point, geo: Geometry, radius: real, seen: nat)
    requires cellDeg > 0.0 && radius >= 1000.0
    decreases MAX_RADIUS - radius
  {
    var found, all := RadiusHits(cellDeg, points, q, radius, geo), AllHits(points, q, geo);
    && (|found| > seen ==> IsLower(Closer, found, all))
    && if radius >= MAX_RADIUS then found == all
       else FoundInOrder(cellDeg, points, q, geo, radius * 2.0, Max(seen, |found|))
  }

  lemma InOrderUnfold(cellDeg: real, points: Points, q: Point, geo: Geometry, radius: real, seen: nat,
      found: set<Hit>, all: set<Hit>, wider: real, most: nat)
    requires cellDeg > 0.0 && radius >= 1000.0 && wider == radius * 2.0 && most == Max(seen, |found|)
    requires found == RadiusHits(cellDeg, points, q, radius, geo) && all == AllHits(points, q, geo)
    ensures FoundInOrder(cellDeg, points, q, geo, radius, seen) <==>
            && (|found| > seen ==> IsLower(Closer, found, all))
            && if radius >= MAX_RADIUS then found == all else FoundInOrder(cellDeg, points, q, geo, wider, most)
  {
    hide RadiusHits, AllHits, IsLower;
  }

  ghost predicate InOrder(cellDeg: real, points: Points, q: Point, geo: Geometry)
    requires cellDeg > 0.0
  {
    FoundInOrder(cellDeg, points, q, geo, StartRadius(cellDeg), 0)
  }

  /** What a disk finds, against the whole collection. */
  lemma DiskInCollection(cellDeg: real, points: Points, q: Point, geo: Geometry, radius: real, found: set<Hit>,
      all: set<Hit>)
    requires cellDeg > 0.0 && found == RadiusHits(cellDeg, points, q, radius, geo) && all == AllHits(points, q, geo)
    ensures StrictOrderOn(Closer, found) && StrictOrderOn(Closer, all) && found <= all && |found| <= |all| == |points|
    ensures FullRanking(points, q, geo) == Ranked(Closer, all)
  {
    HitsOrdered(found);
    HitsOrdered(all);
    AllHitsCount(points, q, geo);
    RadiusExact(cellDeg, points, q, radius, geo);
    hide *;
    SubsetSize(found, all);
    FullRankingIs(points, q, geo, all);
  }

  lemma SubsetSize<T>(a: set<T>, b: set<T>)
    requires a <= b
    ensures |a| <= |b|
  {
    assert b == a + (b - a);
  }

  lemma FullRankingIs(points: Points, q: Point, geo: Geometry, all: set<Hit>)
    requires all == AllHits(points, q, geo) && StrictOrderOn(Closer, all)
    ensures FullRanking(points, q, geo) == Ranked(Closer, all)
  {
    hide AllHits, StrictOrderOn, IsRanking;
  }

  /** The two ways one disk can end the search, and the way it cannot. */
  lemma NearestAt(cellDeg: real, points: Points, q: Point, k: nat, geo: Geometry, radius: real, found: set<Hit>,
      wider: real)
    requires cellDeg > 0.0 && radius >= 1000.0 && wider == radius * 2.0
    requires found == RadiusHits(cellDeg, points, q, radius, geo) && StrictOrderOn(Closer, found)
    ensures |found| < k && radius < MAX_RADIUS ==>
              NearestFrom(cellDeg, points, q, k, geo, radius) == NearestFrom(cellDeg, points, q, k, geo, wider)
    ensures |found| >= k ==> NearestFrom(cellDeg, points, q, k, geo, radius) == Ranked(Closer, found)[..k]
    ensures |found| < k && radius >= MAX_RADIUS ==>
        NearestFrom(cellDeg, points, q, k, geo, radius) == Ranked(Closer, found)
  {
    hide RadiusHits, StrictOrderOn, IsRanking;
  }

  /** A disk that finds `k` points, and a lower set, has the first `k` of all. */
  lemma ServedInOrder(cellDeg: real, points: Points, q: Point, k: nat, geo: Geometry, radius: real, found: set<Hit>,
      all: set<Hit>)
    requires cellDeg > 0.0 && radius >= 1000.0 && (|found| >= k || (radius >= MAX_RADIUS && found == all))
    requires found == RadiusHits(cellDeg, points, q, radius, geo) && all == AllHits(points, q, geo)
    requires IsLower(Closer, found, all)
    ensures ExactFor(cellDeg, points, q, k, geo, radius)
  {
    hide RadiusHits, AllHits, StrictOrderOn, IsRanking, IsLower, NearestFrom, FullRanking;
    DiskInCollection(cellDeg, points, q, geo, radius, found, all);
    NearestAt(cellDeg, points, q, k, geo, radius, found, radius * 2.0);
    LowerExactly(Closer, found, all);
  }

  lemma WholeIsLower(all: set<Hit>)
    ensures IsLower(Closer, all, all)
  {
  }

  lemma {:induction false} ExactIfInOrder(cellDeg: real, points: Points, q: Point, k: nat, geo: Geometry, radius: real,
      seen: nat)
    requires cellDeg > 0.0 && radius >= 1000.0 && k > seen
    requires FoundInOrder(cellDeg, points, q, geo, radius, seen)
    ensures ExactFor(cellDeg, points, q, k, geo, radius)
    decreases MAX_RADIUS - radius
  {
    var found, all, wider := RadiusHits(cellDeg, points, q, radius, geo), AllHits(points, q, geo), radius * 2.0;
    var most := Max(seen, |found|);
    InOrderUnfold(cellDeg, points, q, geo, radius, seen, found, all, wider, most);
    hide RadiusHits, AllHits, ExactFor, FoundInOrder, IsLower;
    if |found| >= k {
      ServedInOrder(cellDeg, points, q, k, geo, radius, found, all);
    } else if radius >= MAX_RADIUS {
      WholeIsLower(all);
      ServedInOrder(cellDeg, points, q, k, geo, radius, found, all);
    } else {
      ExactIfInOrder(cellDeg, points, q, k, geo, wider, most);
      NarrowerExact(cellDeg, points, q, k, geo, radius, wider);
    }
  }

  lemma NarrowerExact(cellDeg: real, points: Points, q: Point, k: nat, geo: Geometry, radius: real, wider: real)
    requires cellDeg > 0.0 && 1000.0 <= radius < MAX_RADIUS && wider == radius * 2.0
    requires |RadiusHits(cellDeg, points, q, radius, geo)| < k
    ensures ExactFor(cellDeg, points, q, k, geo, radius) <==> ExactFor(cellDeg, points, q, k, geo, wider)
  {
    var found := RadiusHits(cellDeg, points, q, radius, geo);
    HitsOrdered(found);
    hide RadiusHits, StrictOrderOn, NearestFrom, Wanted;
    NearestAt(cellDeg, points, q, k, geo, radius, found, wider);
  }

  ghost predicate ExactFor(cellDeg: real, points: Points, q: Point, k: nat, geo: Geometry, radius: real)
    requires cellDeg > 0.0 && radius >= 1000.0
  {
    NearestFrom(cellDeg, points, q, k, geo, radius) == Wanted(points, q, k, geo)
  }

  /** A `k` that this disk serves in full tells whether the disk lies below the rest. */
  lemma FullDisk(cellDeg: real, points: Points, q: Point, geo: Geometry, radius: real, found: set<Hit>, all: set<Hit>)
    requires cellDeg > 0.0 && radius >= 1000.0
    requires found == RadiusHits(cellDeg, points, q, radius, geo) && all == AllHits(points, q, geo)
    requires ExactFor(cellDeg, points, q, |found|, geo, radius)
    ensures IsLower(Closer, found, all)
  {
    hide RadiusHits, AllHits, StrictOrderOn, IsRanking, IsLower, NearestFrom, FullRanking;
    DiskInCollection(cellDeg, points, q, geo, radius, found, all);
    NearestAt(cellDeg, points, q, |found|, geo, radius, found, radius * 2.0);
    LowerExactly(Closer, found, all);
  }

  /** A `k` beyond the collection tells whether the last disk finds everything. */
  lemma LastDisk(cellDeg: real, points: Points, q: Point, k: nat, geo: Geometry, radius: real, found: set<Hit>,
      all: set<Hit>)
    requires cellDeg > 0.0 && radius >= 1000.0 && radius >= MAX_RADIUS && k > |points|
    requires found == RadiusHits(cellDeg, points, q, radius, geo) && all == AllHits(points, q, geo)
    requires ExactFor(cellDeg, points, q, k, geo, radius)
    ensures found == all
  {
    hide RadiusHits, AllHits, StrictOrderOn, NearestFrom, FullRanking;
    DiskInCollection(cellDeg, points, q, geo, radius, found, all);
    NearestAt(cellDeg, points, q, k, geo, radius, found, radius * 2.0);
    assert Ranked(Closer, all)[..|all|] == Ranked(Closer, all);
    assert Elements(Ranked(Closer, found)) == found && Elements(Ranked(Closer, all)) == all;
  }

  lemma AllWiderExact(cellDeg: real, points: Points, q: Point, geo: Geometry, radius: real, seen: nat, size: nat,
      wider: real, most: nat)
    requires cellDeg > 0.0 && 1000.0 <= radius < MAX_RADIUS && wider == radius * 2.0 && most == Max(seen, size)
    requires size == |RadiusHits(cellDeg, points, q, radius, geo)|
    requires forall k: nat | k > seen :: ExactFor(cellDeg, points, q, k, geo, radius)
    ensures forall k: nat | k > most :: ExactFor(cellDeg, points, q, k, geo, wider)
  {
    hide ExactFor, RadiusHits;
    forall k: nat | k > most ensures ExactFor(cellDeg, points, q, k, geo, wider) {
      NarrowerExact(cellDeg, points, q, k, geo, radius, wider);
    }
  }

  lemma {:induction false} InOrderIfExact(cellDeg: real, points: Points, q: Point, geo: Geometry, radius: real,
      seen: nat)
    requires cellDeg > 0.0 && radius >= 1000.0
    requires forall k: nat | k > seen :: ExactFor(cellDeg, points, q, k, geo, radius)
    ensures FoundInOrder(cellDeg, points, q, geo, radius, seen)
    decreases MAX_RADIUS - radius
  {
    var found, all, wider := RadiusHits(cellDeg, points, q, radius, geo), AllHits(points, q, geo), radius * 2.0;
    var most := Max(seen, |found|);
    InOrderUnfold(cellDeg, points, q, geo, radius, seen, found, all, wider, most);
    hide RadiusHits, AllHits, IsLower, ExactFor, FoundInOrder;
    if |found| > seen {
      FullDisk(cellDeg, points, q, geo, radius, found, all);
    }
    if radius >= MAX_RADIUS {
      LastDisk(cellDeg, points, q, Max(seen, |points|) + 1, geo, radius, found, all);
    } else {
      AllWiderExact(cellDeg, points, q, geo, radius, seen, |found|, wider, most);
      InOrderIfExact(cellDeg, points, q, geo, wider, most);
    }
  }

  /**
   Nearest-k is right for every `k` exactly when the widening disks find points in order: none that
   finds more than the smaller ones misses a closer point, and the last misses none.
   */
  lemma NearestExactly(cellDeg: real, points: Points, q: Point, geo: Geometry)
    requires cellDeg > 0.0
    ensures (forall k: nat :: NearestSpec(cellDeg, points, q, k, geo) == Wanted(points, q, k, geo)) <==>
        InOrder(cellDeg, points, q, geo)
  {
    var start := StartRadius(cellDeg);
    if InOrder(cellDeg, points, q, geo) {
      forall k: nat ensures NearestSpec(cellDeg, points, q, k, geo) == Wanted(points, q, k, geo) {
        NearestInOrder(cellDeg, points, q, k, geo);
      }
    } else if points == map[] {
      EmptyInOrder(cellDeg, points, q, geo, start);
    } else if forall k: nat {:trigger Wanted(points, q, k, geo)} ::
        NearestSpec(cellDeg, points, q, k, geo) == Wanted(points, q, k, geo) {
      forall k: nat | k > 0 ensures ExactFor(cellDeg, points, q, k, geo, start) {
        assert NearestSpec(cellDeg, points, q, k, geo) == Wanted(points, q, k, geo);
      }
      InOrderIfExact(cellDeg, points, q, geo, start, 0);
    }
  }

  lemma NearestInOrder(cellDeg: real, points: Points, q: Point, k: nat, geo: Geometry)
    requires cellDeg > 0.0 && InOrder(cellDeg, points, q, geo)
    ensures NearestSpec(cellDeg, points, q, k, geo) == Wanted(points, q, k, geo)
  {
    hide FoundInOrder, NearestFrom;
    if k > 0 && points != map[] {
      ExactIfInOrder(cellDeg, points, q, k, geo, StartRadius(cellDeg), 0);
    }
  }

  lemma {:induction false} EmptyInOrder(cellDeg: real, points: Points, q: Point, geo: Geometry, radius: real)
    requires cellDeg > 0.0 && radius >= 1000.0 && points == map[]
    ensures FoundInOrder(cellDeg, points, q, geo, radius, 0)
    decreases MAX_RADIUS - radius
  {
    assert RadiusHits(cellDeg, points, q, radius, geo) == {} == AllHits(points, q, geo);
    if radius < MAX_RADIUS {
      EmptyInOrder(cellDeg, points, q, geo, radius * 2.0);
    }
  }

  // ---------------------------------------------------------------------------
  // Coverage is enough
  // ---------------------------------------------------------------------------

  /** A covered disk finds a lower set: whatever it misses is farther. */
  lemma CoveredDiskIsLower(cellDeg: real, points: Points, q: Point, geo: Geometry, radius: real)
    requires cellDeg > 0.0 && ScanCovers(cellDeg, points, q, radius, geo)
    ensures IsLower(Closer, RadiusHits(cellDeg, points, q, radius, geo), AllHits(points, q, geo))
    ensures (forall id | id in points :: geo.distance(q, points[id]) <= radius)
            ==> RadiusHits(cellDeg, points, q, radius, geo) == AllHits(points, q, geo)
  {
    var found, all := RadiusHits(cellDeg, points, q, radius, geo), AllHits(points, q, geo);
    RadiusExact(cellDeg, points, q, radius, geo);
    hide RadiusHits, ScanCovers;
    assert forall h | h in all - found :: h.distance > radius;
  }

  lemma {:induction false} CoveredInOrder(cellDeg: real, points: Points, q: Point, geo: Geometry, radius: real,
      seen: nat)
    requires cellDeg > 0.0 && radius >= 1000.0 && CoveredFrom(cellDeg, points, q, geo, radius)
    ensures FoundInOrder(cellDeg, points, q, geo, radius, seen)
    decreases MAX_RADIUS - radius
  {
    hide ScanCovers, RadiusHits, AllHits, IsLower;
    CoveredDiskIsLower(cellDeg, points, q, geo, radius);
    if radius < MAX_RADIUS {
      CoveredInOrder(cellDeg, points, q, geo, radius * 2.0, Max(seen, |RadiusHits(cellDeg, points, q, radius, geo)|));
    }
  }

  /** Nearest-k is right when no disk the search tries has an unscanned point. */
  lemma NearestExact(cellDeg: real, points: Points, q: Point, k: nat, geo: Geometry)
    requires cellDeg > 0.0 && Covered(cellDeg, points, q, geo)
    ensures NearestSpec(cellDeg, points, q, k, geo) == Wanted(points, q, k, geo)
  {
    CoveredInOrder(cellDeg, points, q, geo, StartRadius(cellDeg), 0);
    NearestInOrder(cellDeg, points, q, k, geo);
  }

  /** From a radius on, every band contains its disk, and the last disk holds every point. */
  ghost predicate BandsCover(points: Points, q: Point, geo: Geometry, radius: real)
    requires radius >= 1000.0
    decreases MAX_RADIUS - radius
  {
    && BandCovers(points, q, radius, geo)
    && if radius >= MAX_RADIUS then forall id | id in points :: geo.distance(q, points[id]) <= radius
       else BandsCover(points, q, geo, radius * 2.0)
  }

  lemma {:induction false} BandsSuffice(cellDeg: real, points: Points, q: Point, geo: Geometry, radius: real)
    requires cellDeg > 0.0 && CellDividesGlobe(cellDeg) && radius >= 1000.0 && BandsCover(points, q, geo, radius)
    ensures CoveredFrom(cellDeg, points, q, geo, radius)
    decreases MAX_RADIUS - radius
  {
    hide ScanCovers, BandCovers, CellDividesGlobe;
    BandCoversSuffices(cellDeg, points, q, radius, geo);
    if radius < MAX_RADIUS {
      BandsSuffice(cellDeg, points, q, geo, radius * 2.0);
    }
  }

  /** With a cell size dividing the globe, nearest-k is right for any distance whose disks fit their bands. */
  lemma NearestExactByBands(cellDeg: real, points: Points, q: Point, k: nat, geo: Geometry)
    requires cellDeg > 0.0 && CellDividesGlobe(cellDeg) && BandsCover(points, q, geo, StartRadius(cellDeg))
    ensures NearestSpec(cellDeg, points, q, k, geo) == Wanted(points, q, k, geo)
  {
    BandsSuffice(cellDeg, points, q, geo, StartRadius(cellDeg));
    NearestExact(cellDeg, points, q, k, geo);
  }

  // ---------------------------------------------------------------------------
  // Completeness from the shape of the sphere
  // ---------------------------------------------------------------------------

  /** Longitudes apart, the shorter way round being within `width`. */
  ghost predicate LonWithin(a: real, b: real, width: real) {
    exists turns: int :: Abs(Turned(b, turns) - a) <= width
  }

  /**
   A distance on a sphere of `scale` metres per degree: at least the latitude travelled, and, as long as no
   pole is within reach, at least the longitude travelled at the narrowest latitude reached.
   */
  ghost predicate Spherical(geo: Geometry, scale: real) {
    && scale > 0.0
    && (forall x, y | 0.0 <= x <= y < 90.0 :: 0.0 < geo.cosDeg(y) <= geo.cosDeg(x))
    && (forall a: Point, b: Point :: scale * Abs(a.lat - b.lat) <= geo.distance(a, b))
    && (forall a: Point, b: Point | Abs(a.lat) + geo.distance(a, b) / scale < 90.0 ::
          LonReached(geo, scale, a, b, Abs(a.lat) + geo.distance(a, b) / scale))
  }

  /** A distance that is at least a width of longitude at a latitude of the given cosine. */
  predicate Travels(d: real, scale: real, cos: real, width: real) {
    scale * cos * width <= d
  }

  ghost predicate LonReached(geo: Geometry, scale: real, a: Point, b: Point, reach: real) {
    exists turns: int :: Travels(geo.distance(a, b), scale, geo.cosDeg(reach), Abs(Turned(b.lon, turns) - a.lon))
  }

  /** No two longitudes are more than half a turn apart. */
  lemma HalfTurn(a: real, b: real)
    ensures LonWithin(a, b, 180.0)
  {
    var turns := ((a - b + 180.0) / 360.0).Floor;
    assert turns as real <= (a - b + 180.0) / 360.0 < turns as real + 1.0;
    assert Abs(Turned(b, turns) - a) <= 180.0;
  }

  lemma Quotients(d: real, scale: real, radius: real)
    requires scale > 0.0 && d * M_PER_DEG_LAT <= scale * radius
    ensures d / scale <= radius / M_PER_DEG_LAT
  {
    var x, y := d / scale, radius / M_PER_DEG_LAT;
    assert d == x * scale && radius == y * M_PER_DEG_LAT;
    assert x * (scale * M_PER_DEG_LAT) <= y * (scale * M_PER_DEG_LAT);
    if x > y {
      Scaled(y, x, scale * M_PER_DEG_LAT);
    }
  }

  lemma Scaled(x: real, y: real, factor: real)
    requires x < y && factor > 0.0
    ensures x * factor < y * factor
  {
  }

  lemma ScaledLe(x: real, y: real, factor: real)
    requires x <= y && factor >= 0.0
    ensures x * factor <= y * factor
  {
  }

  /** The longitude travelled, at least `narrow` of full width, from a distance and its bound in degrees. */
  lemma WidthBound(scale: real, cos: real, narrow: real, width: real, d: real, degrees: real)
    requires scale > 0.0 && 0.0 < narrow <= cos && width >= 0.0 && scale * cos * width <= d && d <= degrees * scale
    ensures width <= degrees / narrow
  {
    ScaledLe(narrow, cos, width);
    assert scale * (cos * width) == scale * cos * width;
    if cos * width > degrees {
      Scaled(degrees, cos * width, scale);
    }
    assert degrees / narrow * narrow == degrees;
    if width > degrees / narrow {
      Scaled(degrees / narrow, width, narrow);
    }
  }

  /** The latitude of the band nearest a pole is the farthest the disk reaches. */
  lemma Extreme(lat: real, dlat: real)
    requires dlat >= 0.0 && lat + dlat < 90.0 && lat - dlat > -90.0
    ensures MinReal(MaxReal(Abs(lat + dlat), Abs(lat - dlat)), 90.0) == Abs(lat) + dlat < 90.0
  {
  }

  lemma BoundedDegrees(d: real, scale: real, degrees: real)
    requires scale > 0.0 && d / scale <= degrees
    ensures d <= degrees * scale
  {
    ScaledLe(d / scale, degrees, scale);
  }

  lemma NarrowQuotient(radius: real, narrow: real)
    requires narrow > 0.0
    ensures radius / M_PER_DEG_LAT / narrow == radius / (M_PER_DEG_LAT * narrow)
  {
    var x := radius / M_PER_DEG_LAT / narrow;
    assert x * narrow == radius / M_PER_DEG_LAT;
    assert x * (M_PER_DEG_LAT * narrow) == x * narrow * M_PER_DEG_LAT == radius;
  }

  lemma LatitudeReached(geo: Geometry, scale: real, q: Point, p: Point, degrees: real)
    requires Spherical(geo, scale) && geo.distance(q, p) / scale <= degrees
    ensures Abs(q.lat - p.lat) <= degrees && 0.0 <= geo.distance(q, p) / scale
  {
    var d, apart := geo.distance(q, p), Abs(q.lat - p.lat);
    assert scale * apart <= d;
    hide Spherical;
    DegreesBetween(scale, apart, d, degrees);
  }

  lemma DegreesBetween(scale: real, apart: real, d: real, degrees: real)
    requires scale > 0.0 && apart >= 0.0 && scale * apart <= d && d / scale <= degrees
    ensures apart <= degrees && 0.0 <= d / scale
  {
    var x := d / scale;
    assert x * scale == d;
    if apart > x {
      Scaled(x, apart, scale);
    }
  }

  lemma Narrowest(geo: Geometry, scale: real, x: real, y: real)
    requires Spherical(geo, scale) && 0.0 <= x <= y < 90.0
    ensures 0.0 < geo.cosDeg(y) <= geo.cosDeg(x)
  {
  }

  lemma Travelled(geo: Geometry, scale: real, a: Point, b: Point, reach: real)
    requires Spherical(geo, scale) && scale > 0.0 && reach == Abs(a.lat) + geo.distance(a, b) / scale < 90.0
    ensures LonReached(geo, scale, a, b, reach)
  {
  }

  lemma FromReach(geo: Geometry, scale: real, q: Point, p: Point, reach: real, narrow: real, degrees: real,
      radius: real)
    requires LonReached(geo, scale, q, p, reach) && scale > 0.0 && geo.distance(q, p) / scale <= degrees
    requires 0.0 < narrow <= geo.cosDeg(reach) && degrees == radius / M_PER_DEG_LAT
    ensures LonWithin(q.lon, p.lon, radius / (M_PER_DEG_LAT * narrow))
  {
    var cos, d := geo.cosDeg(reach), geo.distance(q, p);
    var turns: int :| Travels(d, scale, cos, Abs(Turned(p.lon, turns) - q.lon));
    var width := Abs(Turned(p.lon, turns) - q.lon);
    hide Abs, Turned, Travels;
    AbsPositive(Turned(p.lon, turns) - q.lon);
    WidthOf(scale, cos, narrow, width, d, degrees, radius);
  }

  lemma AbsPositive(x: real)
    ensures Abs(x) >= 0.0
  {
  }

  /** Away from the poles, the width that the narrowest latitude of the band asks for is enough. */
  lemma LongitudeReached(geo: Geometry, scale: real, q: Point, p: Point, radius: real, degrees: real, ratio: real)
    requires Spherical(geo, scale) && scale > 0.0 && degrees == radius / M_PER_DEG_LAT
    requires ratio == geo.distance(q, p) / scale && 0.0 <= ratio <= degrees && Abs(q.lat) + degrees < 90.0
    ensures geo.cosDeg(Abs(q.lat) + degrees) > 0.0
    ensures LonWithin(q.lon, p.lon, radius / (M_PER_DEG_LAT * geo.cosDeg(Abs(q.lat) + degrees)))
  {
    AbsPositive(q.lat);
    hide Spherical, LonReached, LonWithin, Abs;
    var reach := Abs(q.lat) + ratio;
    Narrowest(geo, scale, reach, Abs(q.lat) + degrees);
    Travelled(geo, scale, q, p, reach);
    FromReach(geo, scale, q, p, reach, geo.cosDeg(Abs(q.lat) + degrees), degrees, radius);
  }

  lemma WidthOf(scale: real, cos: real, narrow: real, width: real, d: real, degrees: real, radius: real)
    requires scale > 0.0 && 0.0 < narrow <= cos && width >= 0.0 && Travels(d, scale, cos, width) && d / scale <= degrees
    requires degrees == radius / M_PER_DEG_LAT
    ensures width <= radius / (M_PER_DEG_LAT * narrow)
  {
    BoundedDegrees(d, scale, degrees);
    WidthBound(scale, cos, narrow, width, d, degrees);
    NarrowQuotient(radius, narrow);
  }

  /** The half-width reaches every point of the disk, over a pole or not. */
  lemma HalfWidthReaches(geo: Geometry, scale: real, q: Point, p: Point, radius: real, degrees: real)
    requires Spherical(geo, scale) && degrees == radius / M_PER_DEG_LAT
    requires 0.0 <= geo.distance(q, p) / scale <= degrees
    ensures LonWithin(q.lon, p.lon, HalfWidth(q, radius, geo.cosDeg))
  {
    HalfTurn(q.lon, p.lon);
    if q.lat + degrees < 90.0 && q.lat - degrees > -90.0 {
      Extreme(q.lat, degrees);
      var narrow := geo.cosDeg(Abs(q.lat) + degrees);
      ScalePositive(geo, scale);
      hide Spherical, LonWithin, MinReal, MaxReal, Abs;
      LongitudeReached(geo, scale, q, p, radius, degrees, geo.distance(q, p) / scale);
      Smaller(q.lon, p.lon, radius / (M_PER_DEG_LAT * narrow), 180.0);
    }
  }

  lemma Smaller(a: real, b: real, x: real, y: real)
    requires LonWithin(a, b, x) && LonWithin(a, b, y)
    ensures LonWithin(a, b, MinReal(x, y))
  {
  }

  lemma WithinBand(q: Point, p: Point, dlat: real, dlon: real)
    requires Abs(q.lat - p.lat) <= dlat && LonWithin(q.lon, p.lon, dlon)
    ensures InBand(Box(q.lat - dlat, q.lon - dlon, q.lat + dlat, q.lon + dlon), p)
  {
    var turns: int :| Abs(Turned(p.lon, turns) - q.lon) <= dlon;
    assert q.lon - dlon <= Turned(p.lon, turns) <= q.lon + dlon;
  }

  /** A point within the disk, measured at the code's scale, lies in the band. */
  lemma DiskInBand(geo: Geometry, scale: real, q: Point, p: Point, radius: real)
    requires Spherical(geo, scale) && geo.distance(q, p) * M_PER_DEG_LAT <= scale * radius
    ensures InBand(DiskBox(q, radius, geo.cosDeg), p)
  {
    hide Spherical, LonWithin, InBand, HalfWidth, Abs;
    var dlat := radius / M_PER_DEG_LAT;
    ScalePositive(geo, scale);
    Quotients(geo.distance(q, p), scale, radius);
    LatitudeReached(geo, scale, q, p, dlat);
    HalfWidthReaches(geo, scale, q, p, radius, dlat);
    WithinBand(q, p, dlat, HalfWidth(q, radius, geo.cosDeg));
  }

  lemma ScalePositive(geo: Geometry, scale: real)
    requires Spherical(geo, scale)
    ensures scale > 0.0
  {
  }

  /** On a sphere, a radius query finds every point within the radius measured at the code's metres per degree. */
  lemma RadiusCompleteOnSphere(cellDeg: real, points: Points, q: Point, radius: real, geo: Geometry, scale: real,
      id: nat)
    requires cellDeg > 0.0 && CellDividesGlobe(cellDeg) && Spherical(geo, scale) && scale <= M_PER_DEG_LAT
    requires id in points && geo.distance(q, points[id]) * M_PER_DEG_LAT <= scale * radius
    ensures Hit(id, geo.distance(q, points[id])) in RadiusHits(cellDeg, points, q, radius, geo)
  {
    var d := geo.distance(q, points[id]);
    DiskInBand(geo, scale, q, points[id], radius);
    BandScanned(cellDeg, DiskBox(q, radius, geo.cosDeg), points[id]);
    WithinAnyway(geo, scale, q, points[id], radius);
    hide Spherical, CellDividesGlobe, DiskBox, Scanned;
    assert id in ScannedIds(cellDeg, points, DiskBox(q, radius, geo.cosDeg));
    assert HitOf(geo, q, points, id) == Hit(id, d);
  }

  lemma WithinAnyway(geo: Geometry, scale: real, q: Point, p: Point, radius: real)
    requires Spherical(geo, scale) && scale <= M_PER_DEG_LAT && geo.distance(q, p) * M_PER_DEG_LAT <= scale * radius
    ensures geo.distance(q, p) <= radius
  {
    var d := geo.distance(q, p);
    assert scale * Abs(q.lat - p.lat) <= d;
    ScaledLe(0.0, Abs(q.lat - p.lat), scale);
    hide Spherical;
    if radius < 0.0 {
      Scaled(radius, 0.0, scale);
    } else {
      ScaledLe(scale, M_PER_DEG_LAT, radius);
    }
  }

  /** Half the circumference of the sphere of radius 6,371,000 m, for any usual value of pi. */
  const HALF_GLOBE := 20015133.6

  /** From a radius on, the last disk the search tries holds every point. */
  ghost predicate LastHolds(points: Points, q: Point, geo: Geometry, radius: real)
    requires radius >= 1000.0
    decreases MAX_RADIUS - radius
  {
    if radius >= MAX_RADIUS then forall id | id in points :: geo.distance(q, points[id]) <= radius
    else LastHolds(points, q, geo, radius * 2.0)
  }

  lemma AtScale(d: real, radius: real, scale: real)
    requires d <= radius && radius >= 0.0 && scale >= M_PER_DEG_LAT
    ensures d * M_PER_DEG_LAT <= scale * radius
  {
    ScaledLe(M_PER_DEG_LAT, scale, radius);
    ScaledLe(d, radius, M_PER_DEG_LAT);
  }

  lemma SphereBandAt(geo: Geometry, scale: real, q: Point, p: Point, radius: real)
    requires Spherical(geo, scale) && scale >= M_PER_DEG_LAT && radius >= 0.0 && geo.distance(q, p) <= radius
    ensures InBand(DiskBox(q, radius, geo.cosDeg), p)
  {
    hide Spherical, DiskBox, InBand;
    AtScale(geo.distance(q, p), radius, scale);
    DiskInBand(geo, scale, q, p, radius);
  }

  lemma SphereBand(points: Points, q: Point, geo: Geometry, scale: real, radius: real)
    requires Spherical(geo, scale) && scale >= M_PER_DEG_LAT && radius >= 0.0
    ensures BandCovers(points, q, radius, geo)
  {
    hide Spherical, DiskBox, InBand;
    forall id | id in points && geo.distance(q, points[id]) <= radius
      ensures InBand(DiskBox(q, radius, geo.cosDeg), points[id])
    {
      SphereBandAt(geo, scale, q, points[id], radius);
    }
  }

  lemma {:induction false} SphereBands(points: Points, q: Point, geo: Geometry, scale: real, radius: real)
    requires Spherical(geo, scale) && scale >= M_PER_DEG_LAT && radius >= 1000.0 && LastHolds(points, q, geo, radius)
    ensures BandsCover(points, q, geo, radius)
    decreases MAX_RADIUS - radius
  {
    hide Spherical, BandCovers;
    SphereBand(points, q, geo, scale, radius);
    if radius < MAX_RADIUS {
      SphereBands(points, q, geo, scale, radius * 2.0);
    }
  }

  lemma {:induction false} HalfGlobeHeld(points: Points, q: Point, geo: Geometry, radius: real)
    requires radius >= 1000.0 && forall id | id in points :: geo.distance(q, points[id]) <= HALF_GLOBE
    ensures LastHolds(points, q, geo, radius)
    decreases MAX_RADIUS - radius
  {
    if radius < MAX_RADIUS {
      HalfGlobeHeld(points, q, geo, radius * 2.0);
    }
  }

  /** On a sphere of at least the code's metres per degree and of the Earth's size, nearest-k is right for every `k`. */
  lemma NearestExactOnSphere(cellDeg: real, points: Points, q: Point, k: nat, geo: Geometry, scale: real)
    requires cellDeg > 0.0 && CellDividesGlobe(cellDeg) && Spherical(geo, scale) && scale >= M_PER_DEG_LAT
    requires forall id | id in points :: geo.distance(q, points[id]) <= HALF_GLOBE
    ensures NearestSpec(cellDeg, points, q, k, geo) == Wanted(points, q, k, geo)
  {
    hide Spherical;
    HalfGlobeHeld(points, q, geo, StartRadius(cellDeg));
    SphereBands(points, q, geo, scale, StartRadius(cellDeg));
    NearestExactByBands(cellDeg, points, q, k, geo);
  }

  /** A list that has each live point once with its distance, by distance and then by node id. */
  ghost predicate ByDistance(r: seq<Hit>, points: Points, q: Point, geo: Geometry) {
    && (forall id | id in points :: Hit(id, geo.distance(q, points[id])) in r)
    && (forall h | h in r :: h.id in points && h.distance == geo.distance(q, points[h.id]))
    && (forall i, j | 0 <= i < j < |r| ::
          r[i].distance < r[j].distance || (r[i].distance == r[j].distance && r[i].id < r[j].id))
  }

  lemma RankedByDistance(r: seq<Hit>, all: set<Hit>, points: Points, q: Point, geo: Geometry)
    requires IsRanking(Closer, r, all) && all == AllHits(points, q, geo)
    ensures ByDistance(r, points, q, geo)
  {
    assert forall h | h in r :: h in Elements(r);
    forall id | id in points ensures Hit(id, geo.distance(q, points[id])) in r {
      assert HitOf(geo, q, points, id) in Elements(r);
    }
  }

  /** The full ranking lists every live point once, by distance and then by node id. */
  lemma RankingByDistance(points: Points, q: Point, geo: Geometry)
    ensures |FullRanking(points, q, geo)| == |points| && ByDistance(FullRanking(points, q, geo), points, q, geo)
  {
    var all := AllHits(points, q, geo);
    HitsOrdered(all);
    hide StrictOrderOn, AllHits, IsRanking, ByDistance;
    FullRankingIs(points, q, geo, all);
    RankedByDistance(Ranked(Closer, all), all, points, q, geo);
  }

  /** Metres of arc per degree on the sphere of radius 6,371,000 m, for any usual value of pi. */
  ghost predicate MeridianScale(geo: Geometry, scale: real) {
    && 111194.0 < scale < 111196.0
    && forall a: Point, b: Point | a.lon == b.lon :: geo.distance(a, b) == scale * Abs(a.lat - b.lat)
  }

  /** 111,320 m per degree exceeds the sphere's own scale, so the band can fall short and the nearest point be lost. */
  lemma NearestCanMissTheNearest(geo: Geometry, scale: real)
    requires MeridianScale(geo, scale)
    ensures var q, north, south := Point(-0.0001, 0.0), Point(0.5, 0.0), Point(-0.5005, 0.0);
            && geo.distance(q, north) < geo.distance(q, south)
            && NearestSpec(0.5, map[0 := north, 1 := south], q, 1, geo) == [Hit(1, geo.distance(q, south))]
  {
    var q, north, south := Point(-0.0001, 0.0), Point(0.5, 0.0), Point(-0.5005, 0.0);
    var points: Points := map[0 := north, 1 := south];
    var radius := 55660.0;
    assert StartRadius(0.5) == radius;
    var h := HitOf(geo, q, points, 1);
    OnlySouthFound(geo, scale, points, q, radius);
    hide RadiusHits, StrictOrderOn, IsRanking, MeridianScale;
    RankSingle(h);
    assert NearestFrom(0.5, points, q, 1, geo, radius) == Ranked(Closer, {h})[..Min(1, |{h}|)];
  }

  lemma RankSingle(h: Hit)
    ensures StrictOrderOn(Closer, {h}) && Ranked(Closer, {h}) == [h]
  {
    HitsOrdered({h});
    assert IsRanking(Closer, [h], {h});
    RankingUnique(Closer, {h}, [h], Ranked(Closer, {h}));
  }

  lemma OnlySouthFound(geo: Geometry, scale: real, points: Points, q: Point, radius: real)
    requires MeridianScale(geo, scale)
    requires points == map[0 := Point(0.5, 0.0), 1 := Point(-0.5005, 0.0)]
    requires q == Point(-0.0001, 0.0) && radius == 55660.0
    ensures geo.distance(q, points[0]) < geo.distance(q, points[1])
    ensures RadiusHits(0.5, points, q, radius, geo) == {HitOf(geo, q, points, 1)}
  {
    var box := DiskBox(q, radius, geo.cosDeg);
    DiskBoxRows(geo.cosDeg, box);
    hide DiskBox, HalfWidth;
    SouthOnly(points, box);
    SouthDistances(geo, scale, q, points);
    hide ScannedIds;
    assert RadiusHits(0.5, points, q, radius, geo) == {HitOf(geo, q, points, 1)};
  }

  lemma SouthDistances(geo: Geometry, scale: real, q: Point, points: Points)
    requires MeridianScale(geo, scale) && q == Point(-0.0001, 0.0)
    requires points == map[0 := Point(0.5, 0.0), 1 := Point(-0.5005, 0.0)]
    ensures geo.distance(q, points[0]) < geo.distance(q, points[1]) <= 55660.0
  {
    assert geo.distance(q, points[0]) == scale * 0.5001 && geo.distance(q, points[1]) == scale * 0.5004;
  }

  lemma SouthOnly(points: Points, box: Box)
    requires points == map[0 := Point(0.5, 0.0), 1 := Point(-0.5005, 0.0)]
    requires (box.minLat / 0.5).Floor == -2 && (box.maxLat / 0.5).Floor == 0 && box.minLon <= 0.0 <= box.maxLon
    ensures ScannedIds(0.5, points, box) == {1}
  {
    OnlySouthScanned(points, box);
    hide Scanned, CellOf;
  }

  lemma SouthCells()
    ensures TotalCols(0.5) == 720 && CellOf(0.5, Point(0.5, 0.0)).row == 1
    ensures CellOf(0.5, Point(-0.5005, 0.0)) == Cell(-2, Wrap(0, 720))
  {
    assert TotalCols(0.5) == 720;
    assert (0.0 / 0.5).Floor == 0;
  }

  lemma OnlySouthScanned(points: Points, box: Box)
    requires points == map[0 := Point(0.5, 0.0), 1 := Point(-0.5005, 0.0)]
    requires (box.minLat / 0.5).Floor == -2 && (box.maxLat / 0.5).Floor == 0 && box.minLon <= 0.0 <= box.maxLon
    ensures !Scanned(0.5, box, CellOf(0.5, points[0])) && Scanned(0.5, box, CellOf(0.5, points[1]))
  {
    SouthCells();
    FloorMonotone(box.minLon, 0.0, 0.5);
    FloorMonotone(0.0, box.maxLon, 0.5);
    assert (0.0 / 0.5).Floor == 0;
    hide TotalCols, CellOf, Wrap, InColumns, Span;
    ColumnScanned(0.5, box, 0, 0);
  }

  lemma DiskBoxRows(cosDeg: real -> real, box: Box)
    requires box == DiskBox(Point(-0.0001, 0.0), 55660.0, cosDeg)
    ensures (box.minLat / 0.5).Floor == -2 && (box.maxLat / 0.5).Floor == 0
    ensures box.minLon <= 0.0 <= box.maxLon
  {
    assert box.minLat == -0.5001 && box.maxLat == 0.4999;
  }
}

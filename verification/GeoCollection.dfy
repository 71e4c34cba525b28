/** A named collection of geo features: external ids and metadata over the grid's node ids. */
module GeoCollection {
  import opened Common
  import opened Ranking
  import opened Grid
  import opened Metadata

  datatype GeoError = InvalidCoordinate

  datatype Feature<N> = Feature(point: Point, metadata: Json<N>)

  datatype GeoHit<N> = GeoHit(id: string, point: Point, distance: real, metadata: Json<N>)

  predicate ValidCoord(lat: real, lon: real) {
    -90.0 <= lat <= 90.0 && -180.0 <= lon <= 180.0
  }

  function Take<T>(xs: seq<T>, k: nat): seq<T> {
    xs[..Min(k, |xs|)]
  }

  /** Live nodes and external ids are in one-to-one correspondence. */
  ghost predicate Linked(idToNode: map<string, nat>, nodeId: seq<Option<string>>, live: set<nat>) {
    && (forall id | id in idToNode :: idToNode[id] < |nodeId| && nodeId[idToNode[id]] == Some(id))
    && (forall n | n in live :: n < |nodeId|)
    && (forall n: nat | n < |nodeId| :: nodeId[n].Some? <==> n in live)
    && (forall n: nat | n < |nodeId| && nodeId[n].Some? ::
        nodeId[n].value in idToNode && idToNode[nodeId[n].value] == n)
  }

  lemma Unlink(idToNode: map<string, nat>, nodeId: seq<Option<string>>, live: set<nat>, id: string)
    requires Linked(idToNode, nodeId, live) && id in idToNode
    ensures Linked(idToNode - {id}, nodeId[idToNode[id] := None], live - {idToNode[id]})
  {
  }

  lemma Link(idToNode: map<string, nat>, nodeId: seq<Option<string>>, live: set<nat>, id: string, node: nat)
    requires Linked(idToNode, nodeId, live) && id !in idToNode && node == |nodeId|
    ensures Linked(idToNode[id := node], nodeId + [Some(id)], live + {node})
  {
  }

  ghost function FeaturesOf<N>(idToNode: map<string, nat>, points: Points, nodeMeta: seq<Json<N>>)
    : map<string, Feature<N>>
    requires forall id | id in idToNode :: idToNode[id] in points && idToNode[id] < |nodeMeta|
  {
    map id | id in idToNode :: Feature(points[idToNode[id]], nodeMeta[idToNode[id]])
  }

  /** The nodes behind every id but one keep their points and metadata. */
  ghost predicate SameOthers<N>(idToNode: map<string, nat>, id: string,
      points: Points, nodeMeta: seq<Json<N>>, points': Points, nodeMeta': seq<Json<N>>)
  {
    forall i | i in idToNode && i != id ::
      && idToNode[i] in points && idToNode[i] in points' && points[idToNode[i]] == points'[idToNode[i]]
      && idToNode[i] < |nodeMeta| && idToNode[i] < |nodeMeta'| && nodeMeta[idToNode[i]] == nodeMeta'[idToNode[i]]
  }

  lemma FeaturesDrop<N>(idToNode: map<string, nat>, id: string,
      points: Points, nodeMeta: seq<Json<N>>, points': Points, nodeMeta': seq<Json<N>>)
    requires forall i | i in idToNode :: idToNode[i] in points && idToNode[i] < |nodeMeta|
    requires SameOthers(idToNode, id, points, nodeMeta, points', nodeMeta')
    ensures FeaturesOf(idToNode - {id}, points', nodeMeta') == FeaturesOf(idToNode, points, nodeMeta) - {id}
  {
  }

  lemma FeaturesAdd<N>(idToNode: map<string, nat>, id: string, points: Points, nodeMeta: seq<Json<N>>,
      node: nat, p: Point, m: Json<N>)
    requires forall i | i in idToNode :: idToNode[i] in points && idToNode[i] < |nodeMeta|
    requires node == |nodeMeta| && node !in points && id !in idToNode
    ensures FeaturesOf(idToNode[id := node], points[node := p], nodeMeta + [m])
            == FeaturesOf(idToNode, points, nodeMeta)[id := Feature(p, m)]
  {
  }

  lemma LinkedInRange(idToNode: map<string, nat>, nodeId: seq<Option<string>>, points: Points, n: nat)
    requires Linked(idToNode, nodeId, points.Keys) && |nodeId| == n
    ensures forall i | i in idToNode :: idToNode[i] in points && idToNode[i] < n
    ensures n !in points
  {
  }

  /** A new node takes over an id whose previous node, if any, has been cleared. */
  lemma Remembered<N>(idToNode: map<string, nat>, nodeId: seq<Option<string>>, nodeMeta: seq<Json<N>>, points: Points,
      id: string, node: nat, p: Point, m: Json<N>, after: map<string, nat>)
    requires Linked(idToNode - {id}, nodeId, points.Keys) && |nodeMeta| == |nodeId| == node && node !in points
    requires forall i | i in idToNode - {id} :: idToNode[i] in points && idToNode[i] < |nodeMeta|
    requires after == idToNode[id := node]
    ensures Linked(after, nodeId + [Some(id)], points[node := p].Keys)
    ensures forall i | i in after :: after[i] in points[node := p] && after[i] < |nodeMeta + [m]|
    ensures FeaturesOf(after, points[node := p], nodeMeta + [m])
         == FeaturesOf(idToNode - {id}, points, nodeMeta)[id := Feature(p, m)]
  {
    hide Linked, FeaturesOf;
    var others := idToNode - {id};
    Reput(idToNode, id, node);
    Link(others, nodeId, points.Keys, id, node);
    FeaturesAdd(others, id, points, nodeMeta, node, p, m);
    assert points[node := p].Keys == points.Keys + {node};
  }

  class Collection<N(==)> {
    const grid: GridIndex
    var idToNode: map<string, nat>
    var nodeMeta: seq<Json<N>>
    var nodeId: seq<Option<string>>

    ghost predicate Valid()
      reads this, grid
    {
      && grid.Valid()
      && |nodeMeta| == |nodeId| == |grid.coords|
      && Linked(idToNode, nodeId, grid.points.Keys)
    }

    ghost function Features(): map<string, Feature<N>>
      requires Valid()
      reads this, grid
    {
      FeaturesOf(idToNode, grid.points, nodeMeta)
    }

    constructor (cell: real)
      ensures Valid() && fresh(grid) && Features() == map[]
    {
      grid := new GridIndex(cell);
      idToNode := map[];
      nodeMeta := [];
      nodeId := [];
    }

    method Upsert(id: string, lat: real, lon: real, metadata: Json<N>) returns (r: Result<(), GeoError>)
      requires Valid()
      modifies this, grid
      ensures Valid()
      ensures r.Ok? <==> -90.0 <= lat <= 90.0 && -180.0 <= lon <= 180.0
      ensures Features() == if r.Ok? then old(Features())[id := Feature(Point(lat, lon), metadata)] else old(Features())
    {
      hide Sound;
      if !ValidCoord(lat, lon) {
        return Err(InvalidCoordinate);
      }
      ghost var points, meta := grid.points, nodeMeta;
      ghost var was := Features();
      if id in idToNode {
        Forget(id);
      }
      FeaturesDrop(idToNode, id, points, meta, grid.points, nodeMeta);
      Remember(id, lat, lon, metadata);
      Reput(was, id, Feature(Point(lat, lon), metadata));
      r := Ok(());
    }

    /** Inserts a node for an id whose previous node, if any, has been cleared. */
    method Remember(id: string, lat: real, lon: real, metadata: Json<N>)
      requires grid.Valid() && |nodeMeta| == |nodeId| == |grid.coords|
      requires Linked(idToNode - {id}, nodeId, grid.points.Keys)
      modifies this, grid
      ensures Valid()
      ensures Features() ==
              old(FeaturesOf(idToNode - {id}, grid.points, nodeMeta))[id := Feature(Point(lat, lon), metadata)]
    {
      hide Sound, Linked, FeaturesOf;
      LinkedInRange(idToNode - {id}, nodeId, grid.points, |nodeMeta|);
      Remembered(idToNode, nodeId, nodeMeta, grid.points, id, |grid.coords|, Point(lat, lon), metadata,
          idToNode[id := |grid.coords|]);
      var node := grid.Insert(lat, lon);
      nodeMeta := nodeMeta + [metadata];
      nodeId := nodeId + [Some(id)];
      idToNode := idToNode[id := node];
    }

    /** Clears the node behind an id, leaving the id map for the caller to fix up. */
    method Forget(id: string)
      requires Valid() && id in idToNode
      modifies this`nodeId, this`nodeMeta, grid
      ensures grid.Valid() && |nodeMeta| == |nodeId| == |grid.coords| == old(|grid.coords|)
      ensures Linked(idToNode - {id}, nodeId, grid.points.Keys)
      ensures SameOthers(idToNode, id, old(grid.points), old(nodeMeta), grid.points, nodeMeta)
    {
      hide Sound;
      var node := idToNode[id];
      Unlink(idToNode, nodeId, grid.points.Keys, id);
      ghost var points := grid.points;
      grid.Remove(node);
      assert grid.points.Keys == points.Keys - {node};
      nodeId := nodeId[node := None];
      nodeMeta := nodeMeta[node := Null];
    }

    method Delete(id: string) returns (found: bool)
      requires Valid()
      modifies this, grid
      ensures Valid()
      ensures found <==> id in old(Features())
      ensures Features() == old(Features()) - {id}
    {
      hide Sound;
      ghost var points, meta := grid.points, nodeMeta;
      found := id in idToNode;
      if found {
        Forget(id);
        FeaturesDrop(idToNode, id, points, meta, grid.points, nodeMeta);
        idToNode := idToNode - {id};
      }
    }

    /** The nodes as a value. */
    ghost function View(): Nodes<N>
      reads this, grid
    {
      Nodes(grid.points, nodeId, nodeMeta)
    }

    predicate Passes(node: nat, hasFilter: bool, filter: Json<N>)
      requires node < |nodeMeta|
      reads this
    {
      !hasFilter || MatchesFilter(nodeMeta[node], filter)
    }

    function HitFor(node: nat, distance: real): Option<GeoHit<N>>
      requires node < |nodeId| && node < |nodeMeta|
      reads this, grid
    {
      match grid.Coord(node)
      case None => None
      case Some(p) =>
        match nodeId[node]
        case None => None
        case Some(id) => Some(GeoHit(id, p, distance, nodeMeta[node]))
    }

    lemma HitForIs(h: Hit, filter: Json<N>)
      requires Valid() && h.id in grid.points
      ensures h.id < |nodeId| && h.id < |nodeMeta| && h.id < |grid.coords|
      ensures Kept(View(), h, filter)
           == if Passes(h.id, HasFilter(filter), filter) && HitFor(h.id, h.distance).Some?
               then [HitFor(h.id, h.distance).value] else []
    {
    }

    /** Filters candidates and attaches ids, coordinates and metadata. */
    method Matches(found: seq<Hit>, filter: Json<N>) returns (hits: seq<GeoHit<N>>)
      requires Valid() && forall h | h in found :: h.id in grid.points
      ensures hits == Matching(View(), found, filter)
    {
      hits := [];
      ghost var nodes := View();
      assert found[..0] == [];
      var hasFilter := HasFilter(filter);
      for i := 0 to |found|
        invariant hits == Matching(nodes, found[..i], filter)
      {
        assert found[i] in found;
        HitForIs(found[i], filter);
        MatchingStep(nodes, found, i, filter);
        hide Kept, Matching;
        var hit := HitFor(found[i].id, found[i].distance);
        if Passes(found[i].id, hasFilter, filter) && hit.Some? {
          hits := hits + [hit.value];
        }
      }
      assert found[..|found|] == found;
    }

    /** Filtered nearest-k: over-fetches geometrically until `k` candidates match or the whole collection has been
        fetched. */
    method Nearest(q: Point, k: nat, filter: Json<N>, geo: Geometry) returns (hits: seq<GeoHit<N>>)
      requires Valid()
      ensures hits == NearestFiltered(grid.cellDeg, View(), q, k, filter, geo)
      ensures Sensible(View(), q, geo, filter, k, hits)
      ensures InOrder(grid.cellDeg, grid.points, q, geo) ==> hits == FirstMatches(View(), q, k, filter, geo)
    {
      hits := Overfetch(q, k, filter, geo);
      LinkedNamed(idToNode, View());
      hide Linked, NearestFiltered, FirstMatches, Sensible, InOrder;
      NearestSensible(grid.cellDeg, View(), q, k, filter, geo);
      if InOrder(grid.cellDeg, grid.points, q, geo) {
        FilteredInOrder(grid.cellDeg, View(), q, k, filter, geo);
      }
    }

    method Overfetch(q: Point, k: nat, filter: Json<N>, geo: Geometry) returns (hits: seq<GeoHit<N>>)
      requires Valid()
      ensures hits == NearestFiltered(grid.cellDeg, View(), q, k, filter, geo)
    {
      SoundSize(grid.cellDeg, grid.cells, grid.coords, grid.live, grid.points);
      ghost var nodes := View();
      hide Sound, NearestSpec, Linked, Fetched, LastFetch;
      var hasFilter := HasFilter(filter);
      var live := grid.live;
      var fetch := if hasFilter then Max(k * 4, k) else k;
      ghost var first := fetch;
      while true
        invariant k > 0 ==> fetch > 0
        invariant LastFetch(grid.cellDeg, nodes, q, k, filter, geo, fetch)
            == LastFetch(grid.cellDeg, nodes, q, k, filter, geo, first)
        decreases live - fetch
      {
        LastFetchStep(grid.cellDeg, nodes, q, k, filter, geo, fetch);
        NearestLive(grid.cellDeg, nodes.points, q, fetch, geo);
        var found := grid.Nearest(q, fetch, geo);
        hits := Matches(found, filter);
        hits := Take(hits, k);
        FetchedIs(grid.cellDeg, nodes, q, k, filter, geo, fetch);
        if !hasFilter || |hits| >= k || fetch >= live {
          return;
        }
        fetch := Min(fetch * 4, live);
      }
    }
  }

  // ---------------------------------------------------------------------------
  // Filtered nearest
  // ---------------------------------------------------------------------------

  /** Live points, external ids and metadata by node. */
  datatype Nodes<N> = Nodes(points: Points, ids: seq<Option<string>>, metas: seq<Json<N>>)

  /** The feature behind a grid hit, if it passes the filter. */
  ghost function Kept<N>(nodes: Nodes<N>, h: Hit, filter: Json<N>): seq<GeoHit<N>> {
    if h.id in nodes.points && h.id < |nodes.ids| && h.id < |nodes.metas| && nodes.ids[h.id].Some?
       && (HasFilter(filter) ==> MatchesFilter(nodes.metas[h.id], filter))
    then [GeoHit(nodes.ids[h.id].value, nodes.points[h.id], h.distance, nodes.metas[h.id])]
    else []
  }

  /** The features behind a list of grid hits that pass the filter, in the same order. */
  ghost function Matching<N>(nodes: Nodes<N>, hits: seq<Hit>, filter: Json<N>): seq<GeoHit<N>> {
    if hits == [] then [] else Matching(nodes, hits[..|hits| - 1], filter) + Kept(nodes, hits[|hits| - 1], filter)
  }

  lemma MatchingStep<N>(nodes: Nodes<N>, hits: seq<Hit>, i: nat, filter: Json<N>)
    requires i < |hits|
    ensures Matching(nodes, hits[..i + 1], filter) == Matching(nodes, hits[..i], filter) + Kept(nodes, hits[i], filter)
  {
    hide Kept;
    assert hits[..i + 1][..i] == hits[..i];
  }

  lemma {:induction false} MatchingAppend<N>(nodes: Nodes<N>, a: seq<Hit>, b: seq<Hit>, filter: Json<N>)
    ensures Matching(nodes, a + b, filter) == Matching(nodes, a, filter) + Matching(nodes, b, filter)
  {
    hide Kept;
    if b == [] {
      assert a + b == a;
    } else {
      assert (a + b)[..|a + b| - 1] == a + b[..|b| - 1];
      MatchingAppend(nodes, a, b[..|b| - 1], filter);
    }
  }

  /** The answer with a given fetch. */
  ghost function Fetched<N>(cellDeg: real, nodes: Nodes<N>, q: Point, k: nat, filter: Json<N>, geo: Geometry,
      fetch: nat): seq<GeoHit<N>>
    requires cellDeg > 0.0
  {
    Take(Matching(nodes, NearestSpec(cellDeg, nodes.points, q, fetch, geo), filter), k)
  }

  lemma FetchedIs<N>(cellDeg: real, nodes: Nodes<N>, q: Point, k: nat, filter: Json<N>, geo: Geometry, fetch: nat)
    requires cellDeg > 0.0
    ensures Fetched(cellDeg, nodes, q, k, filter, geo, fetch)
         == Take(Matching(nodes, NearestSpec(cellDeg, nodes.points, q, fetch, geo), filter), k)
  {
  }

  /** The first fetch, from `fetch` on, that settles the answer. */
  ghost function LastFetch<N>(cellDeg: real, nodes: Nodes<N>, q: Point, k: nat, filter: Json<N>, geo: Geometry,
      fetch: nat): (last: nat)
    requires cellDeg > 0.0 && (k > 0 ==> fetch > 0)
    ensures if HasFilter(filter) then |Fetched(cellDeg, nodes, q, k, filter, geo, last)| >= k || last >= |nodes.points|
        else last == fetch
    decreases |nodes.points| - fetch
  {
    if !HasFilter(filter) || |Fetched(cellDeg, nodes, q, k, filter, geo, fetch)| >= k || fetch >= |nodes.points|
        then fetch
    else LastFetch(cellDeg, nodes, q, k, filter, geo, Min(fetch * 4, |nodes.points|))
  }

  lemma LastFetchStep<N>(cellDeg: real, nodes: Nodes<N>, q: Point, k: nat, filter: Json<N>, geo: Geometry, fetch: nat)
    requires cellDeg > 0.0 && (k > 0 ==> fetch > 0)
    ensures LastFetch(cellDeg, nodes, q, k, filter, geo, fetch)
         == if !HasFilter(filter) || |Fetched(cellDeg, nodes, q, k, filter, geo, fetch)| >= k
             || fetch >= |nodes.points| then fetch
            else LastFetch(cellDeg, nodes, q, k, filter, geo, Min(fetch * 4, |nodes.points|))
  {
    hide Fetched;
  }

  /** What over-fetching computes. */
  ghost function NearestFiltered<N>(cellDeg: real, nodes: Nodes<N>, q: Point, k: nat, filter: Json<N>,
      geo: Geometry): seq<GeoHit<N>>
    requires cellDeg > 0.0
  {
    var first := if HasFilter(filter) then Max(k * 4, k) else k;
    Fetched(cellDeg, nodes, q, k, filter, geo, LastFetch(cellDeg, nodes, q, k, filter, geo, first))
  }

  /** The first `k` matches of the whole collection, ranked. */
  ghost function FirstMatches<N>(nodes: Nodes<N>, q: Point, k: nat, filter: Json<N>, geo: Geometry): seq<GeoHit<N>> {
    Take(Matching(nodes, FullRanking(nodes.points, q, geo), filter), k)
  }

  /** A prefix of the ranking that already holds `k` matches, or is everything, decides the answer. */
  lemma FetchSuffices<N>(nodes: Nodes<N>, all: seq<Hit>, n: nat, k: nat, filter: Json<N>)
    requires n <= |all| && (n == |all| || |Matching(nodes, all[..n], filter)| >= k)
    ensures Take(Matching(nodes, all[..n], filter), k) == Take(Matching(nodes, all, filter), k)
  {
    if n == |all| {
      assert all[..n] == all;
    } else {
      hide Matching;
      assert all == all[..n] + all[n..];
      MatchingAppend(nodes, all[..n], all[n..], filter);
    }
  }

  lemma NearestLive(cellDeg: real, points: Points, q: Point, k: nat, geo: Geometry)
    requires cellDeg > 0.0
    ensures forall h | h in NearestSpec(cellDeg, points, q, k, geo) ::
        h.id in points && h == HitOf(geo, q, points, h.id)
    ensures |NearestSpec(cellDeg, points, q, k, geo)| <= k && Ascending(Closer, NearestSpec(cellDeg, points, q, k, geo))
  {
    NearestSelects(cellDeg, points, q, k, geo);
    hide NearestSpec;
  }

  lemma RankingLive(points: Points, q: Point, geo: Geometry)
    ensures forall h | h in FullRanking(points, q, geo) :: h.id in points && h == HitOf(geo, q, points, h.id)
  {
    var all := FullRanking(points, q, geo);
    assert Elements(all) == AllHits(points, q, geo);
    assert forall h | h in all :: h in Elements(all);
  }

  /** Every live node has an id and metadata, and no id stands for two nodes. */
  ghost predicate Named<N>(nodes: Nodes<N>) {
    && (forall n | n in nodes.points :: n < |nodes.ids| && n < |nodes.metas| && nodes.ids[n].Some?)
    && (forall m, n | m in nodes.points && n in nodes.points && m < |nodes.ids| && n < |nodes.ids|
        && nodes.ids[m] == nodes.ids[n] :: m == n)
  }

  lemma LinkedNamed<N>(idToNode: map<string, nat>, nodes: Nodes<N>)
    requires Linked(idToNode, nodes.ids, nodes.points.Keys) && |nodes.ids| == |nodes.metas|
    ensures Named(nodes)
  {
  }

  ghost predicate AllLive(points: Points, hits: seq<Hit>) {
    forall h | h in hits :: h.id in points
  }

  /** Without a filter every live node matches. */
  lemma {:induction false} Unfiltered<N>(nodes: Nodes<N>, hits: seq<Hit>, filter: Json<N>)
    requires Named(nodes) && !HasFilter(filter) && AllLive(nodes.points, hits)
    ensures |Matching(nodes, hits, filter)| == |hits|
  {
    if hits != [] {
      assert hits[|hits| - 1] in hits;
      Unfiltered(nodes, hits[..|hits| - 1], filter);
    }
  }

  lemma KeptInjective<N>(nodes: Nodes<N>, a: Hit, b: Hit, filter: Json<N>)
    requires Named(nodes) && !HasFilter(filter) && a.id in nodes.points && b.id in nodes.points
    ensures |Kept(nodes, a, filter)| == 1 == |Kept(nodes, b, filter)|
    ensures Kept(nodes, a, filter)[0] == Kept(nodes, b, filter)[0] ==> a == b
  {
  }

  /** Without a filter the features determine the nodes. */
  lemma {:induction false} UnfilteredInjective<N>(nodes: Nodes<N>, a: seq<Hit>, b: seq<Hit>, filter: Json<N>)
    requires Named(nodes) && !HasFilter(filter) && AllLive(nodes.points, a) && AllLive(nodes.points, b)
    requires Matching(nodes, a, filter) == Matching(nodes, b, filter)
    ensures a == b
  {
    Unfiltered(nodes, a, filter);
    Unfiltered(nodes, b, filter);
    if a != [] {
      var init, init' := a[..|a| - 1], b[..|b| - 1];
      assert AllLive(nodes.points, init) && AllLive(nodes.points, init');
      assert a == init + [a[|a| - 1]] && b == init' + [b[|b| - 1]];
      hide Matching, Named, AllLive;
      LastMatch(nodes, a, b, filter);
      UnfilteredInjective(nodes, init, init', filter);
    }
  }

  lemma LastMatch<N>(nodes: Nodes<N>, a: seq<Hit>, b: seq<Hit>, filter: Json<N>)
    requires Named(nodes) && !HasFilter(filter) && AllLive(nodes.points, a) && AllLive(nodes.points, b) && a != []
        && b != []
    requires Matching(nodes, a, filter) == Matching(nodes, b, filter)
    ensures a[|a| - 1] == b[|b| - 1] && Matching(nodes, a[..|a| - 1], filter) == Matching(nodes, b[..|b| - 1], filter)
  {
    var x, y := a[|a| - 1], b[|b| - 1];
    assert x in a && y in b;
    KeptInjective(nodes, x, y, filter);
    hide Kept, Named, AllLive;
    LastSplit(Matching(nodes, a[..|a| - 1], filter), Kept(nodes, x, filter), Matching(nodes, b[..|b| - 1], filter),
        Kept(nodes, y, filter));
  }

  lemma LastSplit<T>(a: seq<T>, x: seq<T>, b: seq<T>, y: seq<T>)
    requires a + x == b + y && |x| == 1 == |y|
    ensures a == b && x[0] == y[0]
  {
    assert a == (a + x)[..|a|] && b == (b + y)[..|b|];
    assert x[0] == (a + x)[|a|] && y[0] == (b + y)[|b|];
  }

  /** When the grid finds points in order, over-fetching gives the first `k` matches, however sparse the matches. */
  lemma FilteredInOrder<N>(cellDeg: real, nodes: Nodes<N>, q: Point, k: nat, filter: Json<N>, geo: Geometry)
    requires cellDeg > 0.0 && Named(nodes) && InOrder(cellDeg, nodes.points, q, geo)
    ensures NearestFiltered(cellDeg, nodes, q, k, filter, geo) == FirstMatches(nodes, q, k, filter, geo)
  {
    var first := if HasFilter(filter) then Max(k * 4, k) else k;
    var last := LastFetch(cellDeg, nodes, q, k, filter, geo, first);
    var all := FullRanking(nodes.points, q, geo);
    var n := Min(last, |nodes.points|);
    hide LastFetch, InOrder, NearestSpec, FullRanking, Matching;
    NearestInOrder(cellDeg, nodes.points, q, last, geo);
    if !HasFilter(filter) {
      RankingLive(nodes.points, q, geo);
      Unfiltered(nodes, all[..n], filter);
    }
    FetchSuffices(nodes, all, n, k, filter);
  }

  lemma PlainFiltered<N>(cellDeg: real, nodes: Nodes<N>, q: Point, k: nat, filter: Json<N>, geo: Geometry,
      found: seq<Hit>)
    requires cellDeg > 0.0 && Named(nodes) && !HasFilter(filter)
        && found == NearestSpec(cellDeg, nodes.points, q, k, geo)
    ensures NearestFiltered(cellDeg, nodes, q, k, filter, geo) == Matching(nodes, found, filter)
        && AllLive(nodes.points, found)
  {
    hide NearestSpec, Matching, Named, LastFetch;
    NearestLive(cellDeg, nodes.points, q, k, geo);
    Unfiltered(nodes, found, filter);
  }

  lemma PlainMatches<N>(nodes: Nodes<N>, q: Point, k: nat, filter: Json<N>, geo: Geometry, wanted: seq<Hit>)
    requires Named(nodes) && !HasFilter(filter) && wanted == Wanted(nodes.points, q, k, geo)
    ensures FirstMatches(nodes, q, k, filter, geo) == Matching(nodes, wanted, filter) && AllLive(nodes.points, wanted)
  {
    hide FullRanking, Matching, Named;
    RankingLive(nodes.points, q, geo);
    Unfiltered(nodes, wanted, filter);
    FetchSuffices(nodes, FullRanking(nodes.points, q, geo), |wanted|, k, filter);
  }

  lemma PlainExact<N>(cellDeg: real, nodes: Nodes<N>, q: Point, k: nat, filter: Json<N>, geo: Geometry)
    requires cellDeg > 0.0 && Named(nodes) && !HasFilter(filter)
    requires NearestFiltered(cellDeg, nodes, q, k, filter, geo) == FirstMatches(nodes, q, k, filter, geo)
    ensures NearestSpec(cellDeg, nodes.points, q, k, geo) == Wanted(nodes.points, q, k, geo)
  {
    var found, wanted := NearestSpec(cellDeg, nodes.points, q, k, geo), Wanted(nodes.points, q, k, geo);
    hide *;
    PlainFiltered(cellDeg, nodes, q, k, filter, geo, found);
    PlainMatches(nodes, q, k, filter, geo, wanted);
    UnfilteredInjective(nodes, found, wanted, filter);
  }

  /** Filtered nearest is right for every `k` and every filter exactly when the grid finds points in order. */
  lemma FilteredExactly<N(!new)>(cellDeg: real, nodes: Nodes<N>, q: Point, geo: Geometry)
    requires cellDeg > 0.0 && Named(nodes)
    ensures (forall k: nat, filter: Json<N> ::
               NearestFiltered(cellDeg, nodes, q, k, filter, geo) == FirstMatches(nodes, q, k, filter, geo))
            <==> InOrder(cellDeg, nodes.points, q, geo)
  {
    hide NearestFiltered, FirstMatches, NearestSpec, Wanted, InOrder, Named;
    if InOrder(cellDeg, nodes.points, q, geo) {
      forall k: nat, filter: Json<N>
          ensures NearestFiltered(cellDeg, nodes, q, k, filter, geo) == FirstMatches(nodes, q, k, filter, geo) {
        FilteredInOrder(cellDeg, nodes, q, k, filter, geo);
      }
    } else if forall k: nat, filter: Json<N> ::
        NearestFiltered(cellDeg, nodes, q, k, filter, geo) == FirstMatches(nodes, q, k, filter, geo) {
      forall k: nat ensures NearestSpec(cellDeg, nodes.points, q, k, geo) == Wanted(nodes.points, q, k, geo) {
        assert !HasFilter<N>(Json.Null);
        PlainExact(cellDeg, nodes, q, k, Json.Null, geo);
      }
      NearestExactly(cellDeg, nodes.points, q, geo);
    }
  }

  // ---------------------------------------------------------------------------
  // What holds of every answer
  // ---------------------------------------------------------------------------

  /** The hit shows a node's own id, coordinates, distance and metadata, and passes the filter. */
  ghost predicate Shows<N>(nodes: Nodes<N>, q: Point, geo: Geometry, filter: Json<N>, node: nat, h: GeoHit<N>) {
    && node in nodes.points && node < |nodes.ids| && node < |nodes.metas| && nodes.ids[node] == Some(h.id)
    && h.point == nodes.points[node] && h.metadata == nodes.metas[node] && h.distance == geo.distance(q, h.point)
    && (HasFilter(filter) ==> MatchesFilter(h.metadata, filter))
  }

  ghost predicate ShownIn<N>(nodes: Nodes<N>, q: Point, geo: Geometry, filter: Json<N>, found: seq<Hit>, h: GeoHit<N>) {
    exists i :: 0 <= i < |found| && Shows(nodes, q, geo, filter, found[i].id, h)
  }

  /** Different features, nearest first. */
  ghost predicate InSequence<N>(hits: seq<GeoHit<N>>) {
    forall i, j | 0 <= i < j < |hits| :: hits[i].distance <= hits[j].distance && hits[i].id != hits[j].id
  }

  ghost predicate Genuine<N>(nodes: Nodes<N>, q: Point, geo: Geometry, filter: Json<N>, hits: seq<GeoHit<N>>,
      found: seq<Hit>) {
    InSequence(hits) && forall i | 0 <= i < |hits| :: ShownIn(nodes, q, geo, filter, found, hits[i])
  }

  /** Nearest first, each live and at its distance. */
  ghost predicate Located<N>(nodes: Nodes<N>, q: Point, geo: Geometry, found: seq<Hit>) {
    && Ascending(Closer, found)
    && forall i | 0 <= i < |found| ::
        found[i].id in nodes.points && found[i] == HitOf(geo, q, nodes.points, found[i].id)
  }

  lemma ShownMore<N>(nodes: Nodes<N>, q: Point, geo: Geometry, filter: Json<N>, init: seq<Hit>, last: Hit, h: GeoHit<N>)
    requires Named(nodes) && Located(nodes, q, geo, init + [last]) && last.id < |nodes.ids| && nodes.ids[last.id].Some?
    ensures ShownIn(nodes, q, geo, filter, init, h) ==> ShownIn(nodes, q, geo, filter, init + [last], h)
    ensures h in Kept(nodes, last, filter) ==>
        ShownIn(nodes, q, geo, filter, init + [last], h) && h.id == nodes.ids[last.id].value
    ensures h in Kept(nodes, last, filter) ==> h.distance == last.distance
    ensures ShownIn(nodes, q, geo, filter, init, h) ==> h.distance <= last.distance && Some(h.id) != nodes.ids[last.id]
  {
    var found := init + [last];
    assert found[|init|] == last;
    if ShownIn(nodes, q, geo, filter, init, h) {
      var i :| 0 <= i < |init| && Shows(nodes, q, geo, filter, init[i].id, h);
      assert found[i] == init[i] && Closer(found[i], found[|init|]);
    }
    if h in Kept(nodes, last, filter) {
      assert Shows(nodes, q, geo, filter, found[|init|].id, h);
    }
  }

  lemma GenuineStep<N>(nodes: Nodes<N>, q: Point, geo: Geometry, filter: Json<N>, hits: seq<GeoHit<N>>, init: seq<Hit>,
      last: Hit)
    requires Named(nodes) && Genuine(nodes, q, geo, filter, hits, init) && Located(nodes, q, geo, init + [last])
    ensures Genuine(nodes, q, geo, filter, hits + Kept(nodes, last, filter), init + [last])
  {
    var kept := Kept(nodes, last, filter);
    var more := hits + kept;
    assert |kept| <= 1;
    assert (init + [last])[|init|] == last && last.id < |nodes.ids| && nodes.ids[last.id].Some?;
    hide Named, Located, Kept, ShownIn;
    forall i | 0 <= i < |more| ensures ShownIn(nodes, q, geo, filter, init + [last], more[i]) {
      ShownMore(nodes, q, geo, filter, init, last, more[i]);
    }
    forall i, j | 0 <= i < j < |more| ensures more[i].distance <= more[j].distance && more[i].id != more[j].id {
      ShownMore(nodes, q, geo, filter, init, last, more[i]);
      ShownMore(nodes, q, geo, filter, init, last, more[j]);
    }
  }

  lemma {:induction false} MatchingGenuine<N>(nodes: Nodes<N>, q: Point, geo: Geometry, filter: Json<N>,
      found: seq<Hit>)
    requires Named(nodes) && Located(nodes, q, geo, found)
    ensures Genuine(nodes, q, geo, filter, Matching(nodes, found, filter), found)
  {
    if found != [] {
      var init, last := found[..|found| - 1], found[|found| - 1];
      assert found == init + [last] && Located(nodes, q, geo, init);
      hide Genuine, Kept, Located, Named;
      MatchingGenuine(nodes, q, geo, filter, init);
      GenuineStep(nodes, q, geo, filter, Matching(nodes, init, filter), init, last);
    }
  }

  /** At most `k` different features, each showing a node that passes the filter, nearest first. */
  ghost predicate Sensible<N>(nodes: Nodes<N>, q: Point, geo: Geometry, filter: Json<N>, k: nat, hits: seq<GeoHit<N>>) {
    && |hits| <= k && InSequence(hits)
    && forall i | 0 <= i < |hits| :: ShowsSome(nodes, q, geo, filter, hits[i])
  }

  ghost predicate ShowsSome<N>(nodes: Nodes<N>, q: Point, geo: Geometry, filter: Json<N>, h: GeoHit<N>) {
    exists node: nat :: Shows(nodes, q, geo, filter, node, h)
  }

  lemma TakenSensible<N>(nodes: Nodes<N>, q: Point, geo: Geometry, filter: Json<N>, hits: seq<GeoHit<N>>,
      found: seq<Hit>, k: nat)
    requires Genuine(nodes, q, geo, filter, hits, found)
    ensures Sensible(nodes, q, geo, filter, k, Take(hits, k))
  {
    hide Shows;
    var taken := Take(hits, k);
    assert forall i | 0 <= i < |taken| :: taken[i] == hits[i];
    assert InSequence(taken);
    forall i | 0 <= i < |taken| ensures ShowsSome(nodes, q, geo, filter, taken[i]) {
      assert ShownIn(nodes, q, geo, filter, found, hits[i]);
      var n :| 0 <= n < |found| && Shows(nodes, q, geo, filter, found[n].id, hits[i]);
      assert Shows(nodes, q, geo, filter, found[n].id, taken[i]);
    }
  }

  lemma NearestLocated<N>(cellDeg: real, nodes: Nodes<N>, q: Point, k: nat, geo: Geometry)
    requires cellDeg > 0.0
    ensures Located(nodes, q, geo, NearestSpec(cellDeg, nodes.points, q, k, geo))
  {
    hide NearestSpec;
    NearestLive(cellDeg, nodes.points, q, k, geo);
    var found := NearestSpec(cellDeg, nodes.points, q, k, geo);
    assert forall i | 0 <= i < |found| :: found[i] in found;
  }

  /** Even where the grid misses points, filtered nearest gives a sensible answer. */
  lemma NearestSensible<N>(cellDeg: real, nodes: Nodes<N>, q: Point, k: nat, filter: Json<N>, geo: Geometry)
    requires cellDeg > 0.0 && Named(nodes)
    ensures Sensible(nodes, q, geo, filter, k, NearestFiltered(cellDeg, nodes, q, k, filter, geo))
  {
    var first := if HasFilter(filter) then Max(k * 4, k) else k;
    var last := LastFetch(cellDeg, nodes, q, k, filter, geo, first);
    var found := NearestSpec(cellDeg, nodes.points, q, last, geo);
    hide LastFetch, NearestSpec, Matching, Sensible, Genuine, Located, Named, Take;
    NearestLocated(cellDeg, nodes, q, last, geo);
    MatchingGenuine(nodes, q, geo, filter, found);
    TakenSensible(nodes, q, geo, filter, Matching(nodes, found, filter), found, k);
  }
}

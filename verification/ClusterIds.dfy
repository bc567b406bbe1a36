/** Cluster ids: the disjoint set against connectivity of the Ethernet link graph. */
module ClusterIds {
  import opened DisjointSet

  type Edge = (Id, Id)

  ghost predicate Endpoint(edges: set<Edge>, m: Id) {
    exists e :: e in edges && (e.0 == m || e.1 == m)
  }

  /** A link end without a location, which the disjoint set files under chip 0. */
  ghost predicate Stray(located: set<Id>, edges: set<Edge>, m: Id) {
    m !in located && Endpoint(edges, m)
  }

  /** Joined by a link, or one is chip 0 and the other a stray link end. */
  ghost predicate Adjacent(located: set<Id>, edges: set<Edge>, a: Id, b: Id) {
    || (a, b) in edges || (b, a) in edges
    || (a == 0 && Stray(located, edges, b)) || (b == 0 && Stray(located, edges, a))
  }

  /** y is n links away from x along some path. */
  ghost predicate Reach(located: set<Id>, edges: set<Edge>, n: nat, x: Id, y: Id) {
    if n == 0 then x == y
    else exists z :: Adjacent(located, edges, x, z) && Reach(located, edges, n - 1, z, y)
  }

  ghost predicate Connected(located: set<Id>, edges: set<Edge>, x: Id, y: Id) {
    exists n :: Reach(located, edges, n, x, y)
  }

  lemma {:induction false} ReachTrans(located: set<Id>, edges: set<Edge>, n: nat, m: nat, x: Id, y: Id, z: Id)
    requires Reach(located, edges, n, x, y) && Reach(located, edges, m, y, z)
    ensures Reach(located, edges, n + m, x, z)
  {
    if n > 0 {
      var u :| Adjacent(located, edges, x, u) && Reach(located, edges, n - 1, u, y);
      ReachTrans(located, edges, n - 1, m, u, y, z);
    }
  }

  lemma {:induction false} ReachSym(located: set<Id>, edges: set<Edge>, n: nat, x: Id, y: Id)
    requires Reach(located, edges, n, x, y)
    ensures Reach(located, edges, n, y, x)
  {
    if n > 0 {
      var u :| Adjacent(located, edges, x, u) && Reach(located, edges, n - 1, u, y);
      ReachSym(located, edges, n - 1, u, y);
      assert Adjacent(located, edges, u, x) && Reach(located, edges, 0, x, x);
      ReachTrans(located, edges, n - 1, 1, y, u, x);
    }
  }

  lemma ConnectedTrans(located: set<Id>, edges: set<Edge>, x: Id, y: Id, z: Id)
    requires Connected(located, edges, x, y) && Connected(located, edges, y, z)
    ensures Connected(located, edges, x, z)
  {
    var n: nat :| Reach(located, edges, n, x, y);
    var m :| Reach(located, edges, m, y, z);
    ReachTrans(located, edges, n, m, x, y, z);
  }

  lemma ConnectedSym(located: set<Id>, edges: set<Edge>, x: Id, y: Id)
    requires Connected(located, edges, x, y)
    ensures Connected(located, edges, y, x)
  {
    var n: nat :| Reach(located, edges, n, x, y);
    ReachSym(located, edges, n, x, y);
  }

  lemma AdjacentConnected(located: set<Id>, edges: set<Edge>, x: Id, y: Id)
    requires Adjacent(located, edges, x, y)
    ensures Connected(located, edges, x, y)
  {
    assert Reach(located, edges, 0, y, y);
    assert Reach(located, edges, 1, x, y);
  }

  lemma ConnectedRefl(located: set<Id>, edges: set<Edge>, x: Id)
    ensures Connected(located, edges, x, x)
  {
    assert Reach(located, edges, 0, x, x);
  }

  lemma {:induction false} ReachMono(located: set<Id>, edges: set<Edge>, more: set<Edge>, n: nat, x: Id, y: Id)
    requires edges <= more && Reach(located, edges, n, x, y)
    ensures Reach(located, more, n, x, y)
  {
    if n > 0 {
      var u :| Adjacent(located, edges, x, u) && Reach(located, edges, n - 1, u, y);
      ReachMono(located, edges, more, n - 1, u, y);
      assert Adjacent(located, more, x, u);
    }
  }

  lemma ConnectedMono(located: set<Id>, edges: set<Edge>, more: set<Edge>, x: Id, y: Id)
    requires edges <= more && Connected(located, edges, x, y)
    ensures Connected(located, more, x, y)
  {
    var n: nat :| Reach(located, edges, n, x, y);
    ReachMono(located, edges, more, n, x, y);
  }

  /** The forest knows exactly the vertices of the links seen so far. */
  ghost predicate KnowsVertices(p: Parents, located: set<Id>, edges: set<Edge>) {
    && located <= p.Keys
    && (forall m :: Endpoint(edges, m) ==> m in p)
    && (forall m :: Stray(located, edges, m) ==> 0 in p)
    && (forall x :: x in p ==> x in located || Endpoint(edges, x) || x == 0)
  }

  ghost predicate RootsAgree(p: Parents, located: set<Id>, edges: set<Edge>)
    requires WellFormed(p) && KnowsVertices(p, located, edges)
  {
    forall a, b :: Adjacent(located, edges, a, b) && a in p && b in p ==> Root(p, a) == Root(p, b)
  }

  ghost predicate RootsReachable(p: Parents, located: set<Id>, edges: set<Edge>)
    requires WellFormed(p)
  {
    forall x {:trigger Root(p, x)} :: x in p ==> Connected(located, edges, x, Root(p, x))
  }

  /** The classes of the forest are the components of the links seen so far. */
  ghost predicate Tracks(p: Parents, located: set<Id>, edges: set<Edge>) {
    && WellFormed(p) && KnowsVertices(p, located, edges)
    && RootsAgree(p, located, edges)
    && RootsReachable(p, located, edges)
  }

  /** Touching a link end either changes nothing or files it under chip 0. */
  lemma TouchRoots(p: Parents, located: set<Id>, edges: set<Edge>, a: Id)
    requires WellFormed(p) && located <= p.Keys && RootsReachable(p, located, edges) && Endpoint(edges, a)
    ensures var t := Touched(p, a);
            && RootsReachable(t, located, edges)
            && (forall x :: x in p ==> Root(t, x) == Root(p, x))
            && (a !in p ==> Root(t, a) == Root(t, 0) == 0)
  {
    var t := Touched(p, a);
    forall x | x in p
      ensures Root(t, x) == Root(p, x)
    {
      RootOfExtension(p, t, x);
    }
    if a !in p {
      assert Linked(t, a) && Linked(t, 0);
      AdjacentConnected(located, edges, a, 0);
      ConnectedRefl(located, edges, 0);
      assert forall x :: x in t ==> x in p || x == a || x == 0;
    }
  }

  lemma ReachableMono(p: Parents, located: set<Id>, edges: set<Edge>, more: set<Edge>)
    requires WellFormed(p) && RootsReachable(p, located, edges) && edges <= more
    ensures RootsReachable(p, located, more)
  {
    forall x | x in p
      ensures Connected(located, more, x, Root(p, x))
    {
      ConnectedMono(located, edges, more, x, Root(p, x));
    }
  }

  /** Joining the classes of two linked chips keeps every root inside its component. */
  lemma JoinReachable(t: Parents, located: set<Id>, edges: set<Edge>, a: Id, b: Id)
    requires WellFormed(t) && RootsReachable(t, located, edges) && a in t && b in t && (a, b) in edges
    ensures RootsReachable(Joined(t, Root(t, a), Root(t, b)), located, edges)
  {
    var r1, r2 := Root(t, a), Root(t, b);
    var q := Joined(t, r1, r2);
    AdjacentConnected(located, edges, a, b);
    ConnectedSym(located, edges, a, r1);
    ConnectedTrans(located, edges, r1, a, b);
    ConnectedTrans(located, edges, r1, b, r2);
    ConnectedSym(located, edges, r1, r2);
    forall x | x in q
      ensures Connected(located, edges, x, Root(q, x))
    {
      RootOfJoined(t, r1, r2, q, x);
      var r := Root(t, x);
      if r == r1 && Root(q, x) == r2 {
        ConnectedTrans(located, edges, x, r1, r2);
      } else if r == r2 && Root(q, x) == r1 {
        ConnectedTrans(located, edges, x, r2, r1);
      }
    }
  }

  lemma EndpointOfMore(edges: set<Edge>, a: Id, b: Id, m: Id)
    ensures Endpoint(edges + {(a, b)}, m) <==> Endpoint(edges, m) || m == a || m == b
  {
    var more := edges + {(a, b)};
    assert (a, b) in more;
    if Endpoint(edges, m) {
      var e :| e in edges && (e.0 == m || e.1 == m);
      assert e in more;
    }
  }

  lemma MergeReachable(p: Parents, located: set<Id>, edges: set<Edge>, a: Id, b: Id)
    requires Tracks(p, located, edges)
    ensures RootsReachable(Merged(p, a, b), located, edges + {(a, b)})
  {
    var more := edges + {(a, b)};
    EndpointOfMore(edges, a, b, a);
    EndpointOfMore(edges, a, b, b);
    ReachableMono(p, located, edges, more);
    TouchRoots(p, located, more, a);
    TouchRoots(Touched(p, a), located, more, b);
    JoinReachable(Touched(Touched(p, a), b), located, more, a, b);
  }

  lemma RootsAfterTouches(p: Parents, a: Id, b: Id, x: Id)
    requires WellFormed(p) && x in p
    ensures var t := Touched(Touched(p, a), b); x in t && Root(t, x) == Root(p, x)
  {
    RootOfExtension(p, Touched(Touched(p, a), b), x);
  }

  /** A stray link end shares its root with chip 0 once both link ends are touched. */
  lemma StrayRoot(p: Parents, located: set<Id>, edges: set<Edge>, a: Id, b: Id, m: Id)
    requires Tracks(p, located, edges) && Stray(located, edges + {(a, b)}, m)
    ensures var t := Touched(Touched(p, a), b); m in t && 0 in t && Root(t, m) == Root(t, 0)
  {
    var t := Touched(Touched(p, a), b);
    EndpointOfMore(edges, a, b, m);
    if Endpoint(edges, m) {
      assert Stray(located, edges, m) && Adjacent(located, edges, m, 0);
      RootsAfterTouches(p, a, b, m);
      RootsAfterTouches(p, a, b, 0);
    } else if m !in p {
      assert t[m] == 0 && 0 in t;
      assert Linked(t, m) && Linked(t, 0);
    }
  }

  /** Adjacent chips already share a root, unless they are the two ends being merged. */
  lemma AdjacentRoots(p: Parents, located: set<Id>, edges: set<Edge>, a: Id, b: Id, u: Id, v: Id)
    requires Tracks(p, located, edges) && Adjacent(located, edges + {(a, b)}, u, v)
    ensures var t := Touched(Touched(p, a), b);
            u in t && v in t && (Root(t, u) == Root(t, v) || (u == a && v == b) || (u == b && v == a))
  {
    var more := edges + {(a, b)};
    if (u, v) in edges || (v, u) in edges {
      assert Adjacent(located, edges, u, v) && Endpoint(edges, u) && Endpoint(edges, v);
      RootsAfterTouches(p, a, b, u);
      RootsAfterTouches(p, a, b, v);
    } else if (u, v) in more || (v, u) in more {
    } else if u == 0 && Stray(located, more, v) {
      StrayRoot(p, located, edges, a, b, v);
    } else {
      StrayRoot(p, located, edges, a, b, u);
    }
  }

  lemma MergeAgree(p: Parents, located: set<Id>, edges: set<Edge>, a: Id, b: Id, u: Id, v: Id)
    requires Tracks(p, located, edges) && Adjacent(located, edges + {(a, b)}, u, v)
    ensures var q := Merged(p, a, b); u in q && v in q && Root(q, u) == Root(q, v)
  {
    var t := Touched(Touched(p, a), b);
    var r1, r2 := Root(t, a), Root(t, b);
    AdjacentRoots(p, located, edges, a, b, u, v);
    RootOfJoined(t, r1, r2, Joined(t, r1, r2), u);
    RootOfJoined(t, r1, r2, Joined(t, r1, r2), v);
  }

  lemma MergeKnows(p: Parents, located: set<Id>, edges: set<Edge>, a: Id, b: Id)
    requires Tracks(p, located, edges)
    ensures KnowsVertices(Merged(p, a, b), located, edges + {(a, b)})
  {
    var more := edges + {(a, b)};
    var q := Merged(p, a, b);
    assert (a, b) in more && Endpoint(more, a) && Endpoint(more, b);
    assert q.Keys == Touched(Touched(p, a), b).Keys;
    forall m
      ensures Endpoint(more, m) <==> Endpoint(edges, m) || m == a || m == b
    {
      EndpointOfMore(edges, a, b, m);
    }
    forall m | Stray(located, more, m)
      ensures 0 in q
    {
      StrayRoot(p, located, edges, a, b, m);
    }
  }

  /** Merging the ends of a link keeps classes and components in step. */
  lemma MergeKeepsTracking(p: Parents, located: set<Id>, edges: set<Edge>, a: Id, b: Id)
    requires Tracks(p, located, edges)
    ensures Tracks(Merged(p, a, b), located, edges + {(a, b)})
  {
    var q := Merged(p, a, b);
    MergeReachable(p, located, edges, a, b);
    MergeKnows(p, located, edges, a, b);
    forall u, v | Adjacent(located, edges + {(a, b)}, u, v) && u in q && v in q
      ensures Root(q, u) == Root(q, v)
    {
      MergeAgree(p, located, edges, a, b, u, v);
    }
  }

  ghost predicate SameRoot(p: Parents, x: Id, y: Id)
    requires WellFormed(p)
  {
    x in p && y in p && Root(p, x) == Root(p, y)
  }

  lemma AdjacentSameRoot(p: Parents, located: set<Id>, edges: set<Edge>, x: Id, z: Id)
    requires Tracks(p, located, edges) && Adjacent(located, edges, x, z)
    ensures SameRoot(p, x, z)
  {
    if (x, z) in edges || (z, x) in edges {
      assert Endpoint(edges, x) && Endpoint(edges, z);
    }
  }

  lemma {:induction false} PathKeepsRoot(p: Parents, located: set<Id>, edges: set<Edge>, n: nat, x: Id, y: Id)
    requires WellFormed(p) && forall u, v :: Adjacent(located, edges, u, v) ==> SameRoot(p, u, v)
    requires x in p && Reach(located, edges, n, x, y)
    ensures SameRoot(p, x, y)
  {
    if n > 0 {
      var z: Id :| Adjacent(located, edges, x, z) && Reach(located, edges, n - 1, z, y);
      PathKeepsRoot(p, located, edges, n - 1, z, y);
    }
  }

  lemma ReachSameRoot(p: Parents, located: set<Id>, edges: set<Edge>, n: nat, x: Id, y: Id)
    requires Tracks(p, located, edges) && x in p && Reach(located, edges, n, x, y)
    ensures y in p && Root(p, y) == Root(p, x)
  {
    forall u, v | Adjacent(located, edges, u, v)
      ensures SameRoot(p, u, v)
    {
      AdjacentSameRoot(p, located, edges, u, v);
    }
    PathKeepsRoot(p, located, edges, n, x, y);
  }

  /** The smallest id reachable from x. */
  ghost predicate IsClusterId(located: set<Id>, edges: set<Edge>, x: Id, id: Id) {
    && Connected(located, edges, x, id)
    && forall y :: Connected(located, edges, x, y) ==> id <= y
  }

  lemma RootIsClusterId(p: Parents, located: set<Id>, edges: set<Edge>, x: Id)
    requires Tracks(p, located, edges) && x in p
    ensures IsClusterId(located, edges, x, Root(p, x))
  {
    forall y | Connected(located, edges, x, y)
      ensures Root(p, x) <= y
    {
      var n: nat :| Reach(located, edges, n, x, y);
      ReachSameRoot(p, located, edges, n, x, y);
    }
  }

  type Channel = nat
  type Connections = map<Id, map<Channel, (Id, Channel)>>

  datatype EthCoord = EthCoord(clusterId: Id, x: int, y: int, rack: int, shelf: int)

  /** Chip-to-chip links, channels forgotten. */
  ghost function Links(conns: Connections): set<Edge> {
    set c, ch | c in conns && ch in conns[c] :: (c, conns[c][ch].0)
  }

  ghost function LinksOf(conns: Connections, c: Id): set<Edge>
    requires c in conns
  {
    set ch | ch in conns[c] :: (c, conns[c][ch].0)
  }

  lemma RootsAreClusterIds(p: Parents, located: set<Id>, edges: set<Edge>)
    requires Tracks(p, located, edges)
    ensures forall x :: x in located ==> x in p && IsClusterId(located, edges, x, Root(p, x))
  {
    forall x | x in located
      ensures IsClusterId(located, edges, x, Root(p, x))
    {
      RootIsClusterId(p, located, edges, x);
    }
  }

  class ClusterTopology {
    var chipLocations: map<Id, EthCoord>
    const connections: Connections

    constructor (locations: map<Id, EthCoord>, connections: Connections)
      ensures chipLocations == locations && this.connections == connections
    {
      chipLocations, this.connections := locations, connections;
    }

    /** Whatever order the maps are walked in, each located chip gets the least id of its component. */
    method MergeClusterIds()
      modifies this
      ensures chipLocations.Keys == old(chipLocations.Keys)
      ensures forall c :: c in chipLocations ==>
                && chipLocations[c] == old(chipLocations)[c].(clusterId := chipLocations[c].clusterId)
                && IsClusterId(old(chipLocations.Keys), Links(connections), c, chipLocations[c].clusterId)
    {
      var located := chipLocations.Keys;
      var sets := new DisjointSet();
      AddAll(sets, located);

      ghost var edges: set<Edge> := {};
      var todo := connections.Keys;
      while todo != {}
        invariant todo <= connections.Keys
        invariant Tracks(sets.parent, located, edges)
        invariant forall c, ch :: c in connections && c !in todo && ch in connections[c] ==>
                    (c, connections[c][ch].0) in edges
        invariant edges <= Links(connections)
        invariant chipLocations == old(chipLocations)
      {
        var chip :| chip in todo;
        todo := todo - {chip};
        MergeChip(sets, chip, located, edges);
        edges := edges + LinksOf(connections, chip);
      }
      assert edges == Links(connections);
      Assign(sets, located, edges);
    }

    method AddAll(sets: DisjointSet, located: set<Id>)
      requires sets.parent == map[]
      modifies sets
      ensures Tracks(sets.parent, located, {})
    {
      var todo := located;
      while todo != {}
        invariant todo <= located
        invariant sets.Valid() && sets.parent.Keys == located - todo
        invariant forall k :: k in sets.parent ==> sets.parent[k] == k
      {
        var chip :| chip in todo;
        sets.AddItem(chip);
        todo := todo - {chip};
      }
      assert located <= sets.parent.Keys;
      forall x | x in sets.parent
        ensures Connected(located, {}, x, Root(sets.parent, x))
      {
        ConnectedRefl(located, {}, x);
      }
    }

    method MergeLink(sets: DisjointSet, a: Id, b: Id, ghost located: set<Id>, ghost edges: set<Edge>)
      requires Tracks(sets.parent, located, edges)
      modifies sets
      ensures Tracks(sets.parent, located, edges + {(a, b)})
    {
      MergeKeepsTracking(sets.parent, located, edges, a, b);
      sets.Merge(a, b);
    }

    method MergeChip(sets: DisjointSet, chip: Id, ghost located: set<Id>, ghost edges: set<Edge>)
      requires chip in connections && Tracks(sets.parent, located, edges)
      modifies sets
      ensures Tracks(sets.parent, located, edges + LinksOf(connections, chip))
    {
      var channels := connections[chip].Keys;
      ghost var seen := edges;
      while channels != {}
        invariant channels <= connections[chip].Keys
        invariant Tracks(sets.parent, located, seen)
        invariant seen == edges + set ch | ch in connections[chip] && ch !in channels :: (chip, connections[chip][ch].0)
      {
        var ch :| ch in channels;
        MergeLink(sets, chip, connections[chip][ch].0, located, seen);
        seen := seen + {(chip, connections[chip][ch].0)};
        channels := channels - {ch};
      }
      assert seen == edges + LinksOf(connections, chip);
    }

    method Assign(sets: DisjointSet, located: set<Id>, ghost edges: set<Edge>)
      requires located == chipLocations.Keys && Tracks(sets.parent, located, edges)
      modifies this, sets
      ensures chipLocations.Keys == located
      ensures forall c :: c in chipLocations ==>
                && chipLocations[c] == old(chipLocations)[c].(clusterId := chipLocations[c].clusterId)
                && IsClusterId(located, edges, c, chipLocations[c].clusterId)
    {
      var todo := located;
      while todo != {}
        invariant todo <= located == chipLocations.Keys
        invariant sets.parent == old(sets.parent)
        invariant forall c :: c in todo ==> chipLocations[c] == old(chipLocations)[c]
        invariant forall c :: c in located - todo ==>
                    chipLocations[c] == old(chipLocations)[c].(clusterId := Root(sets.parent, c))
      {
        var chip :| chip in todo;
        var id := sets.GetSet(chip);
        chipLocations := chipLocations[chip := chipLocations[chip].(clusterId := id)];
        todo := todo - {chip};
      }
      RootsAreClusterIds(sets.parent, located, edges);
    }
  }

  /** Two chips have the same cluster id exactly when they are connected. */
  lemma SameIdIffConnected(located: set<Id>, edges: set<Edge>, x: Id, y: Id, idX: Id, idY: Id)
    requires IsClusterId(located, edges, x, idX) && IsClusterId(located, edges, y, idY)
    ensures idX == idY <==> Connected(located, edges, x, y)
  {
    if idX == idY {
      ConnectedSym(located, edges, y, idY);
      ConnectedTrans(located, edges, x, idX, y);
    }
    if Connected(located, edges, x, y) {
      ConnectedTrans(located, edges, x, y, idY);
      ConnectedSym(located, edges, x, y);
      ConnectedTrans(located, edges, y, x, idX);
    }
  }

  /** A path of n links, each taken in either direction. */
  ghost predicate LinkPath(edges: set<Edge>, n: nat, x: Id, y: Id) {
    if n == 0 then x == y
    else exists z :: ((x, z) in edges || (z, x) in edges) && LinkPath(edges, n - 1, z, y)
  }

  /** Some path of links joins x to y. */
  ghost predicate JoinedByLinks(edges: set<Edge>, x: Id, y: Id) {
    exists n: nat :: LinkPath(edges, n, x, y)
  }

  lemma {:induction false} LinkPathTrans(edges: set<Edge>, n: nat, m: nat, x: Id, y: Id, z: Id)
    requires LinkPath(edges, n, x, y) && LinkPath(edges, m, y, z)
    ensures LinkPath(edges, n + m, x, z)
  {
    if n > 0 {
      var u: Id :| ((x, u) in edges || (u, x) in edges) && LinkPath(edges, n - 1, u, y);
      LinkPathTrans(edges, n - 1, m, u, y, z);
    }
  }

  lemma {:induction false} LinkPathSym(edges: set<Edge>, n: nat, x: Id, y: Id)
    requires LinkPath(edges, n, x, y)
    ensures LinkPath(edges, n, y, x)
  {
    if n > 0 {
      var u: Id :| ((x, u) in edges || (u, x) in edges) && LinkPath(edges, n - 1, u, y);
      LinkPathSym(edges, n - 1, u, y);
      assert LinkPath(edges, 0, x, x);
      assert LinkPath(edges, 1, u, x);
      LinkPathTrans(edges, n - 1, 1, y, u, x);
    }
  }

  lemma JoinedRefl(edges: set<Edge>, x: Id)
    ensures JoinedByLinks(edges, x, x)
  {
    assert LinkPath(edges, 0, x, x);
  }

  lemma JoinedSym(edges: set<Edge>, x: Id, y: Id)
    requires JoinedByLinks(edges, x, y)
    ensures JoinedByLinks(edges, y, x)
  {
    var n: nat :| LinkPath(edges, n, x, y);
    LinkPathSym(edges, n, x, y);
  }

  lemma JoinedTrans(edges: set<Edge>, x: Id, y: Id, z: Id)
    requires JoinedByLinks(edges, x, y) && JoinedByLinks(edges, y, z)
    ensures JoinedByLinks(edges, x, z)
  {
    var n: nat :| LinkPath(edges, n, x, y);
    var m: nat :| LinkPath(edges, m, y, z);
    LinkPathTrans(edges, n, m, x, y, z);
  }

  lemma LinkJoins(edges: set<Edge>, x: Id, y: Id)
    requires (x, y) in edges || (y, x) in edges
    ensures JoinedByLinks(edges, x, y)
  {
    assert LinkPath(edges, 0, y, y);
    assert LinkPath(edges, 1, x, y);
  }

  lemma {:induction false} LinkPathConnects(located: set<Id>, edges: set<Edge>, n: nat, x: Id, y: Id)
    requires LinkPath(edges, n, x, y)
    ensures Reach(located, edges, n, x, y)
  {
    if n > 0 {
      var u: Id :| ((x, u) in edges || (u, x) in edges) && LinkPath(edges, n - 1, u, y);
      LinkPathConnects(located, edges, n - 1, u, y);
      assert Adjacent(located, edges, x, u);
    }
  }

  lemma JoinedConnects(located: set<Id>, edges: set<Edge>, x: Id, y: Id)
    requires JoinedByLinks(edges, x, y)
    ensures Connected(located, edges, x, y)
  {
    var n: nat :| LinkPath(edges, n, x, y);
    LinkPathConnects(located, edges, n, x, y);
  }

  /** Links lead to a stray link end. */
  ghost predicate LeadsAstray(located: set<Id>, edges: set<Edge>, x: Id) {
    exists m :: Stray(located, edges, m) && JoinedByLinks(edges, x, m)
  }

  /** Links lead to chip 0 or to a stray link end, which is filed under chip 0. */
  ghost predicate Anchored(located: set<Id>, edges: set<Edge>, x: Id) {
    JoinedByLinks(edges, x, 0) || LeadsAstray(located, edges, x)
  }

  lemma AnchoredAlong(located: set<Id>, edges: set<Edge>, x: Id, y: Id)
    requires JoinedByLinks(edges, x, y) && Anchored(located, edges, y)
    ensures Anchored(located, edges, x)
  {
    if JoinedByLinks(edges, y, 0) {
      JoinedTrans(edges, x, y, 0);
    } else {
      var m: Id :| Stray(located, edges, m) && JoinedByLinks(edges, y, m);
      JoinedTrans(edges, x, y, m);
    }
  }

  lemma AnchoredConnects(located: set<Id>, edges: set<Edge>, x: Id)
    requires Anchored(located, edges, x)
    ensures Connected(located, edges, x, 0)
  {
    if JoinedByLinks(edges, x, 0) {
      JoinedConnects(located, edges, x, 0);
    } else {
      var m: Id :| Stray(located, edges, m) && JoinedByLinks(edges, x, m);
      JoinedConnects(located, edges, x, m);
      AdjacentConnected(located, edges, m, 0);
      ConnectedTrans(located, edges, x, m, 0);
    }
  }

  lemma {:induction false} ReachJoinsOrAnchors(located: set<Id>, edges: set<Edge>, n: nat, x: Id, y: Id)
    requires Reach(located, edges, n, x, y)
    ensures JoinedByLinks(edges, x, y) || (Anchored(located, edges, x) && Anchored(located, edges, y))
  {
    if n == 0 {
      JoinedRefl(edges, x);
    } else {
      var z: Id :| Adjacent(located, edges, x, z) && Reach(located, edges, n - 1, z, y);
      ReachJoinsOrAnchors(located, edges, n - 1, z, y);
      JoinedRefl(edges, x);
      JoinedRefl(edges, z);
      if (x, z) in edges || (z, x) in edges {
        LinkJoins(edges, x, z);
        if JoinedByLinks(edges, z, y) {
          JoinedTrans(edges, x, z, y);
        } else {
          AnchoredAlong(located, edges, x, z);
        }
      } else if JoinedByLinks(edges, z, y) {
        JoinedSym(edges, z, y);
        AnchoredAlong(located, edges, y, z);
      }
    }
  }

  /** What the disjoint set unites: chips joined by links, and all that links join to chip 0 or to a stray end. */
  lemma ConnectedIff(located: set<Id>, edges: set<Edge>, x: Id, y: Id)
    ensures Connected(located, edges, x, y) <==>
            JoinedByLinks(edges, x, y) || (Anchored(located, edges, x) && Anchored(located, edges, y))
  {
    if Connected(located, edges, x, y) {
      var n: nat :| Reach(located, edges, n, x, y);
      ReachJoinsOrAnchors(located, edges, n, x, y);
    }
    if JoinedByLinks(edges, x, y) {
      JoinedConnects(located, edges, x, y);
    }
    if Anchored(located, edges, x) && Anchored(located, edges, y) {
      AnchoredConnects(located, edges, x);
      AnchoredConnects(located, edges, y);
      ConnectedSym(located, edges, y, 0);
      ConnectedTrans(located, edges, x, 0, y);
    }
  }

  /** The smallest chip on any path of links from x. */
  ghost predicate IsComponentId(edges: set<Edge>, x: Id, id: Id) {
    JoinedByLinks(edges, x, id) && forall z :: JoinedByLinks(edges, x, z) ==> id <= z
  }

  /** A chip's cluster id is the smallest of its component exactly if links to a stray end come with links to chip 0. */
  lemma ClusterIdIsComponentIdIff(located: set<Id>, edges: set<Edge>, x: Id, id: Id)
    requires IsClusterId(located, edges, x, id)
    ensures IsComponentId(edges, x, id) <==> (LeadsAstray(located, edges, x) ==> JoinedByLinks(edges, x, 0))
  {
    ConnectedIff(located, edges, x, id);
    forall z | JoinedByLinks(edges, x, z)
      ensures id <= z
    {
      JoinedConnects(located, edges, x, z);
    }
    if Anchored(located, edges, x) {
      AnchoredConnects(located, edges, x);
    }
  }

  /** Every located chip gets the smallest chip of its component. */
  ghost predicate AllIdsAreComponentIds(located: set<Id>, edges: set<Edge>) {
    forall x, id :: x in located && IsClusterId(located, edges, x, id) ==> IsComponentId(edges, x, id)
  }

  /** Cluster ids are component ids exactly if every located chip that links lead astray is joined to chip 0. */
  lemma AllIdsAreComponentIdsIff(located: set<Id>, edges: set<Edge>)
    ensures AllIdsAreComponentIds(located, edges) <==>
            forall x :: x in located && LeadsAstray(located, edges, x) ==> JoinedByLinks(edges, x, 0)
  {
    forall x, id | x in located && IsClusterId(located, edges, x, id)
      ensures IsComponentId(edges, x, id) <==> (LeadsAstray(located, edges, x) ==> JoinedByLinks(edges, x, 0))
    {
      ClusterIdIsComponentIdIff(located, edges, x, id);
    }
    if AllIdsAreComponentIds(located, edges) {
      forall x | x in located && LeadsAstray(located, edges, x)
        ensures JoinedByLinks(edges, x, 0)
      {
        AnchoredConnects(located, edges, x);
        assert IsClusterId(located, edges, x, 0);
      }
    }
  }

  /** Two chips share a cluster id exactly if links join them or lead both to chip 0 or to stray ends. */
  lemma SameIdIff(located: set<Id>, edges: set<Edge>, x: Id, y: Id, idX: Id, idY: Id)
    requires IsClusterId(located, edges, x, idX) && IsClusterId(located, edges, y, idY)
    ensures idX == idY <==>
            JoinedByLinks(edges, x, y) || (Anchored(located, edges, x) && Anchored(located, edges, y))
  {
    SameIdIffConnected(located, edges, x, y, idX, idY);
    ConnectedIff(located, edges, x, y);
  }

  /**
   When every link end has a location, chips share a cluster id exactly when a path of
   links joins them, and the id is the smallest on any such path.
   */
  lemma LocatedLinksGiveComponents(located: set<Id>, edges: set<Edge>, x: Id, y: Id, idX: Id, idY: Id)
    requires forall m :: Endpoint(edges, m) ==> m in located
    requires IsClusterId(located, edges, x, idX) && IsClusterId(located, edges, y, idY)
    ensures idX == idY <==> JoinedByLinks(edges, x, y)
    ensures IsComponentId(edges, x, idX)
  {
    SameIdIff(located, edges, x, y, idX, idY);
    ClusterIdIsComponentIdIff(located, edges, x, idX);
    if JoinedByLinks(edges, x, 0) && JoinedByLinks(edges, y, 0) {
      JoinedSym(edges, y, 0);
      JoinedTrans(edges, x, 0, y);
    }
  }

  /** A link to a chip without a location puts chip 1 into chip 0's cluster with no path between them. */
  lemma StrayLinkEndJoinsChipZero(id0: Id, id1: Id, n: nat)
    requires IsClusterId({0, 1}, {(1, 7)}, 0, id0) && IsClusterId({0, 1}, {(1, 7)}, 1, id1)
    ensures id0 == id1
    ensures !LinkPath({(1, 7)}, n, 0, 1)
  {
    var l, e: set<Edge> := {0, 1}, {(1, 7)};
    assert (1, 7) in e;
    assert Stray(l, e, 7);
    LinkJoins(e, 1, 7);
    JoinedRefl(e, 0);
    SameIdIff(l, e, 0, 1, id0, id1);
  }
}

/** Which destination groups the center hands a message to (center.c). */
module Routing {

  /** One log statement. `dests` and `filters` are indices of destination groups
      and of filter rules. */
  datatype Connection = Connection(
    sources: set<string>, filters: seq<nat>, dests: seq<nat>,
    catchall: bool, fallback: bool, final: bool, flow: bool)

  /** What routing asks of a message: the name of its source group and the
      filter rules that accept it. */
  datatype Facts = Facts(source: string, accepted: set<nat>)

  datatype Route = Route(group: nat, flow: bool)

  predicate Matches(c: Connection, f: Facts) {
    && (c.catchall || f.source in c.sources)
    && (forall k :: 0 <= k < |c.filters| ==> c.filters[k] in f.accepted)
  }

  /** Fallback connections are used exactly if no other connection matches. */
  predicate UsesFallback(conns: seq<Connection>, f: Facts) {
    forall i :: 0 <= i < |conns| && Matches(conns[i], f) ==> conns[i].fallback
  }

  /** A connection is served if it matches, is of the kind in use, and no
      matching connection of that kind before it is final. */
  predicate Served(conns: seq<Connection>, f: Facts, i: nat)
    requires i < |conns|
  {
    && Matches(conns[i], f)
    && conns[i].fallback == UsesFallback(conns, f)
    && forall j :: 0 <= j < i && Matches(conns[j], f) && conns[j].fallback == conns[i].fallback ==> !conns[j].final
  }

  function RoutesOf(c: Connection): (r: seq<Route>)
    ensures |r| == |c.dests|
    ensures forall k :: 0 <= k < |r| ==> r[k] == Route(c.dests[k], c.flow)
  {
    seq(|c.dests|, k requires 0 <= k < |c.dests| => Route(c.dests[k], c.flow))
  }

  /** The routes of the served ones among the first `n` connections. */
  function RoutesUpTo(conns: seq<Connection>, f: Facts, n: nat): seq<Route>
    requires n <= |conns|
  {
    if n == 0 then []
    else RoutesUpTo(conns, f, n - 1) + if Served(conns, f, n - 1) then RoutesOf(conns[n - 1]) else []
  }

  function Routes(conns: seq<Connection>, f: Facts): seq<Route> {
    RoutesUpTo(conns, f, |conns|)
  }

  /** Nothing past a served final connection is served. */
  lemma {:induction false} FinalStops(conns: seq<Connection>, f: Facts, i: nat, n: nat)
    requires i < n <= |conns|
    requires Served(conns, f, i) && conns[i].final
    ensures RoutesUpTo(conns, f, n) == RoutesUpTo(conns, f, i + 1)
  {
    if n > i + 1 {
      FinalStops(conns, f, i, n - 1);
      assert !Served(conns, f, n - 1);
    }
  }

  /** Without a matching connection of the kind in use nothing is served. */
  lemma {:induction false} NoneServed(conns: seq<Connection>, f: Facts, n: nat)
    requires n <= |conns|
    requires forall i :: 0 <= i < n ==> !Served(conns, f, i)
    ensures RoutesUpTo(conns, f, n) == []
  {
    if n > 0 {
      NoneServed(conns, f, n - 1);
    }
  }

  /** Every route comes from a matching connection of its flow-control kind. */
  lemma {:induction false} RouteHasOrigin(conns: seq<Connection>, f: Facts, n: nat, r: Route) returns (i: nat, k: nat)
    requires n <= |conns|
    requires r in RoutesUpTo(conns, f, n)
    ensures i < n && Served(conns, f, i) && k < |conns[i].dests| && r == Route(conns[i].dests[k], conns[i].flow)
  {
    if Served(conns, f, n - 1) && r in RoutesOf(conns[n - 1]) {
      i := n - 1;
      var rs := RoutesOf(conns[i]);
      k :| 0 <= k < |rs| && rs[k] == r;
    } else {
      i, k := RouteHasOrigin(conns, f, n - 1, r);
    }
  }

  // ---------------------------------------------------------------------
  // All routes, each once, in order
  // ---------------------------------------------------------------------

  /** Destination `dest` of connection `conn`. */
  datatype Place = Place(conn: nat, dest: nat)

  predicate Before(a: Place, b: Place) {
    a.conn < b.conn || (a.conn == b.conn && a.dest < b.dest)
  }

  /** A destination of a served connection among the first `n`. */
  predicate IsServed(conns: seq<Connection>, f: Facts, n: nat, p: Place)
    requires n <= |conns|
  {
    p.conn < n && Served(conns, f, p.conn) && p.dest < |conns[p.conn].dests|
  }

  function RouteAt(conns: seq<Connection>, p: Place): Route
    requires p.conn < |conns| && p.dest < |conns[p.conn].dests|
  {
    Route(conns[p.conn].dests[p.dest], conns[p.conn].flow)
  }

  /** `places` are the destinations of the served connections among the first
      `n`, each once and in order, and `routes` are their routes. */
  ghost predicate Lists(conns: seq<Connection>, f: Facts, n: nat, places: seq<Place>, routes: seq<Route>)
    requires n <= |conns|
  {
    && |places| == |routes|
    && (forall q :: 0 <= q < |places| ==>
          IsServed(conns, f, n, places[q]) && routes[q] == RouteAt(conns, places[q]))
    && (forall q, r :: 0 <= q < r < |places| ==> Before(places[q], places[r]))
    && (forall p :: IsServed(conns, f, n, p) ==> p in places)
  }

  lemma {:induction false} ListsMore(
    conns: seq<Connection>, f: Facts, n: nat, places: seq<Place>, routes: seq<Route>, more: seq<Place>)
    requires 0 < n <= |conns| && Lists(conns, f, n - 1, places, routes)
    requires |more| == if Served(conns, f, n - 1) then |conns[n - 1].dests| else 0
    requires forall k :: 0 <= k < |more| ==> more[k] == Place(n - 1, k)
    ensures Lists(conns, f, n, places + more,
                  routes + if Served(conns, f, n - 1) then RoutesOf(conns[n - 1]) else [])
  {
    var all := places + more;
    forall p | IsServed(conns, f, n, p) ensures p in all {
      if p.conn == n - 1 {
        assert more[p.dest] == p;
      } else {
        assert IsServed(conns, f, n - 1, p);
      }
    }
    forall q, r | 0 <= q < r < |all| ensures Before(all[q], all[r]) {
      if q < |places| {
        assert IsServed(conns, f, n - 1, places[q]);
      }
    }
  }

  /** Nothing is missed, repeated or reordered: the routes are those of all the
      destinations of all the served connections, in order and once each. */
  lemma {:induction false} RoutesListServed(conns: seq<Connection>, f: Facts, n: nat) returns (places: seq<Place>)
    requires n <= |conns|
    ensures Lists(conns, f, n, places, RoutesUpTo(conns, f, n))
  {
    places := [];
    if n > 0 {
      var before := RoutesListServed(conns, f, n - 1);
      var count := if Served(conns, f, n - 1) then |conns[n - 1].dests| else 0;
      var more := seq(count, k requires 0 <= k < count => Place(n - 1, k));
      ListsMore(conns, f, n, before, RoutesUpTo(conns, f, n - 1), more);
      places := before + more;
    }
  }

  /** The source is the right one, or any is, and no filter rejects. */
  lemma {:induction false} WhoMatches(c: Connection, f: Facts)
    ensures !c.catchall && f.source !in c.sources ==> !Matches(c, f)
    ensures (exists k :: 0 <= k < |c.filters| && c.filters[k] !in f.accepted) ==> !Matches(c, f)
    ensures (c.catchall || f.source in c.sources) && (set k | k in c.filters) <= f.accepted ==> Matches(c, f)
  {
    if (set k | k in c.filters) <= f.accepted {
      forall k | 0 <= k < |c.filters| ensures c.filters[k] in f.accepted {
        assert c.filters[k] in (set j | j in c.filters);
      }
    }
  }

  /** Every destination of a connection gets the message if the connection
      matches, nothing final of its kind that matches is before it, and it is no fallback or
      nothing else matches. */
  lemma {:induction false} DestinationIsRouted(conns: seq<Connection>, f: Facts, i: nat, k: nat)
    requires i < |conns| && k < |conns[i].dests| && Matches(conns[i], f)
    requires forall j :: 0 <= j < i && Matches(conns[j], f) && conns[j].final ==>
      conns[j].fallback != conns[i].fallback
    requires !conns[i].fallback || forall j :: 0 <= j < |conns| && !conns[j].fallback ==> !Matches(conns[j], f)
    ensures Route(conns[i].dests[k], conns[i].flow) in Routes(conns, f)
  {
    var places := RoutesListServed(conns, f, |conns|);
    assert IsServed(conns, f, |conns|, Place(i, k));
    var q :| 0 <= q < |places| && places[q] == Place(i, k);
    assert Routes(conns, f)[q] == RouteAt(conns, places[q]);
  }

  /** A fallback connection gets nothing when a connection of the other kind
      matches, and a connection behind a final one of its kind that matches does not
      either. */
  lemma {:induction false} NotServed(conns: seq<Connection>, f: Facts, i: nat, j: nat)
    requires i < |conns| && j < |conns| && Matches(conns[j], f)
    requires (conns[i].fallback && !conns[j].fallback)
          || (j < i && conns[j].final && conns[j].fallback == conns[i].fallback)
    ensures !Served(conns, f, i)
  {
  }

  /** One pass of `log_center_queue` over the connections: the first pass takes
      the normal ones and notes whether it skipped a fallback one, the second
      takes the fallback ones. */
  method Pass(conns: seq<Connection>, f: Facts, fallbacks: bool)
    returns (routes: seq<Route>, matched: bool, haveFallbacks: bool)
    ensures matched <==> exists i :: 0 <= i < |conns| && Matches(conns[i], f) && conns[i].fallback == fallbacks
    ensures !matched ==> routes == []
    ensures matched && fallbacks == UsesFallback(conns, f) ==> routes == Routes(conns, f)
    ensures !matched && !fallbacks ==> (haveFallbacks <==> exists i :: 0 <= i < |conns| && conns[i].fallback)
  {
    routes, matched, haveFallbacks := [], false, false;
    var ci := 0;
    while ci < |conns|
      invariant 0 <= ci <= |conns|
      invariant matched <==> exists i :: 0 <= i < ci && Matches(conns[i], f) && conns[i].fallback == fallbacks
      invariant forall i :: 0 <= i < ci && Matches(conns[i], f) && conns[i].fallback == fallbacks ==> !conns[i].final
      invariant !matched ==> routes == []
      invariant fallbacks == UsesFallback(conns, f) ==> routes == RoutesUpTo(conns, f, ci)
      invariant !fallbacks ==> (haveFallbacks <==> exists i :: 0 <= i < ci && conns[i].fallback)
    {
      var conn := conns[ci];
      if !fallbacks && conn.fallback {
        haveFallbacks := true;
      } else if fallbacks && !conn.fallback {
      } else if Matches(conn, f) {
        matched := true;
        routes := routes + RoutesOf(conn);
        if conn.final {
          if fallbacks == UsesFallback(conns, f) {
            FinalStops(conns, f, ci, |conns|);
          }
          return;
        }
      }
      ci := ci + 1;
    }
  }

  /** The routing of `log_center_queue`: a second pass only if the first one
      matched nothing and met a fallback connection. */
  method Select(conns: seq<Connection>, f: Facts) returns (routes: seq<Route>)
    ensures routes == Routes(conns, f)
    ensures exists places :: Lists(conns, f, |conns|, places, routes)
  {
    var matched, haveFallbacks, fallbacks := false, true, 0;
    routes := [];
    while !matched && haveFallbacks && fallbacks <= 1
      invariant 0 <= fallbacks <= 2
      invariant !matched ==> routes == []
      invariant matched ==> routes == Routes(conns, f)
      invariant !matched && fallbacks >= 1 ==> UsesFallback(conns, f)
      invariant !matched && fallbacks == 1 ==> (haveFallbacks <==> exists i :: 0 <= i < |conns| && conns[i].fallback)
      invariant !matched && fallbacks == 2 ==> forall i :: 0 <= i < |conns| ==> !Matches(conns[i], f)
      invariant !matched && fallbacks == 0 ==> haveFallbacks
      decreases 2 - fallbacks
    {
      routes, matched, haveFallbacks := Pass(conns, f, fallbacks == 1);
      fallbacks := fallbacks + 1;
    }
    if !matched {
      NoneServed(conns, f, |conns|);
    }
    ghost var places := RoutesListServed(conns, f, |conns|);
  }
}

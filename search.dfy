/**
 * The breadth-first searches of the flow: the backward search from the end
 * nodes, the forward search from the start nodes, and the example-path search
 * from one start node. Each is proved to return exactly the set of nodes that
 * a path of graph edges reaches.
 */
module Search {
  import opened Wrappers
  import opened IR
  import Util

  /** The edges node `v` holds on side `d`; none for a key that is not in the graph. */
  function Edges(g: Nodes, v: string, d: Dir): seq<Edge> {
    if v in g then g[v].List(d) else []
  }

  /** The containment test of the searches: an empty set lets every node through. */
  predicate Allowed(c: set<string>, w: string) {
    c == {} || w in c
  }

  /**
   * `p` walks from `from` to `to` on side `d` (out edges forward, in edges
   * backward): each edge is held by the node the previous edge reached, and
   * every node it reaches is allowed by `c`.
   */
  ghost predicate PathFrom(g: Nodes, d: Dir, c: set<string>, p: seq<Edge>, from: string, to: string) {
    && (p == [] ==> from == to)
    && (p != [] ==> p[0] in Edges(g, from, d) && p[|p| - 1].Far(d) == to)
    && (forall i | 0 <= i < |p| - 1 :: p[i + 1] in Edges(g, p[i].Far(d), d))
    && (forall i | 0 <= i < |p| :: Allowed(c, p[i].Far(d)))
  }

  /** No node strictly inside the path is in `stop`. */
  ghost predicate Avoids(p: seq<Edge>, d: Dir, stop: set<string>) {
    forall i | 0 <= i < |p| - 1 :: p[i].Far(d) !in stop
  }

  /** Some seed reaches `v`. */
  ghost predicate Reaches(g: Nodes, seeds: set<string>, c: set<string>, d: Dir, v: string) {
    exists s, p :: s in seeds && PathFrom(g, d, c, p, s, v)
  }

  /** Every allowed neighbour of `v` on side `d` is in `vis`. */
  ghost predicate Expanded(g: Nodes, c: set<string>, d: Dir, v: string, vis: set<string>) {
    forall e | e in Edges(g, v, d) && Allowed(c, e.Far(d)) :: e.Far(d) in vis
  }

  /** Every node of `vis` outside `stop` has its allowed neighbours in `vis`. */
  ghost predicate ClosedExcept(g: Nodes, c: set<string>, d: Dir, vis: set<string>, stop: set<string>) {
    forall v {:trigger Expanded(g, c, d, v, vis)} | v in vis && v !in stop :: Expanded(g, c, d, v, vis)
  }

  /** Every node some edge reaches on side `d`: a bound on what a search can visit. */
  function Fars(g: Nodes, d: Dir): set<string> {
    set v, e | v in g && e in g[v].List(d) :: e.Far(d)
  }

  lemma ExpandedGrows(g: Nodes, c: set<string>, d: Dir, v: string, a: set<string>, b: set<string>)
    requires a <= b && Expanded(g, c, d, v, a)
    ensures Expanded(g, c, d, v, b)
  {
  }

  lemma InFars(g: Nodes, d: Dir, v: string, e: Edge)
    requires e in Edges(g, v, d)
    ensures e.Far(d) in Fars(g, d)
  {
    assert v in g && e in g[v].List(d);
  }

  /** A path extended by an allowed edge held by its end node. */
  lemma PathExtend(g: Nodes, d: Dir, c: set<string>, p: seq<Edge>, s: string, v: string, e: Edge)
    requires PathFrom(g, d, c, p, s, v)
    requires e in Edges(g, v, d) && Allowed(c, e.Far(d))
    ensures PathFrom(g, d, c, p + [e], s, e.Far(d))
  {
    var q := p + [e];
    forall i | 0 <= i < |q| - 1
      ensures q[i + 1] in Edges(g, q[i].Far(d), d)
    {
      if i < |p| - 1 {
        assert q[i] == p[i] && q[i + 1] == p[i + 1];
      }
    }
  }

  /** The node a path reaches after its first `i` edges. */
  function Reached(p: seq<Edge>, d: Dir, s: string, i: nat): string
    requires i <= |p|
  {
    if i == 0 then s else p[i - 1].Far(d)
  }

  /** Every prefix of a path is a path. */
  lemma PathPrefix(g: Nodes, d: Dir, c: set<string>, p: seq<Edge>, s: string, t: string, i: nat)
    requires PathFrom(g, d, c, p, s, t) && i <= |p|
    ensures PathFrom(g, d, c, p[..i], s, Reached(p, d, s, i))
  {
    var q := p[..i];
    forall j | 0 <= j < |q| - 1
      ensures q[j + 1] in Edges(g, q[j].Far(d), d)
    {
      assert q[j] == p[j] && q[j + 1] == p[j + 1];
    }
  }

  /** Every suffix of a path is a path. */
  lemma PathSuffix(g: Nodes, d: Dir, c: set<string>, p: seq<Edge>, s: string, t: string, i: nat)
    requires PathFrom(g, d, c, p, s, t) && i <= |p|
    ensures PathFrom(g, d, c, p[i..], Reached(p, d, s, i), t)
  {
    var q := p[i..];
    forall j | 0 <= j < |q| - 1
      ensures q[j + 1] in Edges(g, q[j].Far(d), d)
    {
      assert q[j] == p[i + j] && q[j + 1] == p[i + j + 1];
    }
  }

  /** A path stays a path under any containment set that allows each node it reaches. */
  lemma PathWiden(g: Nodes, d: Dir, c: set<string>, c2: set<string>, p: seq<Edge>, s: string, t: string)
    requires PathFrom(g, d, c, p, s, t)
    requires forall i | 0 <= i < |p| :: Allowed(c2, p[i].Far(d))
    ensures PathFrom(g, d, c2, p, s, t)
  {
  }

  /**
   * A set that holds the start of a path and is closed outside `stop` holds the
   * end of every path that does not pass through `stop`.
   */
  lemma {:induction false} ClosedReaches(g: Nodes, d: Dir, c: set<string>, vis: set<string>, stop: set<string>,
                                         p: seq<Edge>, s: string, t: string)
    requires s in vis && s !in stop && ClosedExcept(g, c, d, vis, stop)
    requires PathFrom(g, d, c, p, s, t) && Avoids(p, d, stop)
    ensures t in vis
    decreases |p|
  {
    if p != [] {
      var n := |p| - 1;
      var m := Reached(p, d, s, n);
      PathPrefix(g, d, c, p, s, t, n);
      assert Avoids(p[..n], d, stop) by {
        forall i | 0 <= i < n - 1 ensures p[..n][i].Far(d) !in stop {
          assert p[..n][i] == p[i];
        }
      }
      ClosedReaches(g, d, c, vis, stop, p[..n], s, m);
      assert Expanded(g, c, d, m, vis);
      assert p[n] in Edges(g, m, d);
      assert m !in stop;
    }
  }

  /** The edges of a path in the opposite order. */
  function Rev(p: seq<Edge>): seq<Edge> {
    seq(|p|, i requires 0 <= i < |p| => p[|p| - 1 - i])
  }

  /** In a well-formed graph each edge of a forward path is also in its callee's in list. */
  lemma PathEdgesMirrored(g: Nodes, p: seq<Edge>, s: string, t: string)
    requires GraphOK(g) && PathFrom(g, Out, {}, p, s, t)
    ensures forall i | 0 <= i < |p| :: p[i] in Edges(g, p[i].callee, In) && p[i].caller == Reached(p, Out, s, i)
  {
    forall i | 0 <= i < |p| ensures p[i] in Edges(g, p[i].callee, In) && p[i].caller == Reached(p, Out, s, i) {
      var h := Reached(p, Out, s, i);
      assert p[i] in Edges(g, h, Out);
      GraphOKAt(g, h, Out);
    }
  }

  /** A forward path whose edges are all mirrored in in lists, read backwards, is a path along in edges. */
  lemma ReverseMirrored(g: Nodes, p: seq<Edge>, s: string, t: string)
    requires PathFrom(g, Out, {}, p, s, t)
    requires forall i | 0 <= i < |p| :: p[i] in Edges(g, p[i].callee, In) && p[i].caller == Reached(p, Out, s, i)
    ensures PathFrom(g, In, {}, Rev(p), t, s)
  {
    var q := Rev(p);
    var n := |p|;
    if n > 0 {
      assert q[0] == p[n - 1];
      assert q[n - 1].Far(In) == s;
    }
    forall i | 0 <= i < n - 1 ensures q[i + 1] in Edges(g, q[i].Far(In), In) {
      assert q[i] == p[n - 1 - i] && q[i + 1] == p[n - 2 - i];
      assert p[n - 1 - i].caller == p[n - 2 - i].callee;
    }
  }

  /** In a well-formed graph a forward path read backwards is a path along in edges. */
  lemma ReversePath(g: Nodes, p: seq<Edge>, s: string, t: string)
    requires GraphOK(g) && PathFrom(g, Out, {}, p, s, t)
    ensures PathFrom(g, In, {}, Rev(p), t, s)
  {
    PathEdgesMirrored(g, p, s, t);
    ReverseMirrored(g, p, s, t);
  }

  /** Every visited node is reached from a seed. */
  ghost predicate Witnessed(g: Nodes, seeds: set<string>, c: set<string>, d: Dir, vis: set<string>) {
    forall v {:trigger Reaches(g, seeds, c, d, v)} | v in vis :: Reaches(g, seeds, c, d, v)
  }

  /** Each visited node is still queued, is the node being expanded, or is expanded. */
  ghost predicate Pending(g: Nodes, c: set<string>, d: Dir, vis: set<string>, q: seq<string>, v: string, stop: set<string>) {
    forall u {:trigger Expanded(g, c, d, u, vis)} | u in vis && u !in stop :: u == v || u in q || Expanded(g, c, d, u, vis)
  }

  lemma WitnessedAdd(g: Nodes, seeds: set<string>, c: set<string>, d: Dir, vis: set<string>, v: string, e: Edge)
    requires Witnessed(g, seeds, c, d, vis) && v in vis
    requires e in Edges(g, v, d) && Allowed(c, e.Far(d))
    ensures Witnessed(g, seeds, c, d, vis + {e.Far(d)})
  {
    assert Reaches(g, seeds, c, d, v);
    var s: string, p: seq<Edge> :| s in seeds && PathFrom(g, d, c, p, s, v);
    PathExtend(g, d, c, p, s, v, e);
    assert Reaches(g, seeds, c, d, e.Far(d));
  }

  lemma PendingAdd(g: Nodes, c: set<string>, d: Dir, vis: set<string>, q: seq<string>, v: string, w: string, stop: set<string>)
    requires Pending(g, c, d, vis, q, v, stop)
    ensures Pending(g, c, d, vis + {w}, q + [w], v, stop)
  {
    forall u | u in vis + {w} && u !in stop && u != v && u !in q + [w]
      ensures Expanded(g, c, d, u, vis + {w})
    {
      ExpandedGrows(g, c, d, u, vis, vis + {w});
    }
  }

  /** Once a node's edges are all looked at, it is expanded. */
  lemma PendingDone(g: Nodes, c: set<string>, d: Dir, vis: set<string>, q: seq<string>, v: string, stop: set<string>)
    requires Pending(g, c, d, vis, q, v, stop)
    requires forall j | 0 <= j < |Edges(g, v, d)| :: Allowed(c, Edges(g, v, d)[j].Far(d)) ==> Edges(g, v, d)[j].Far(d) in vis
    ensures forall u {:trigger Expanded(g, c, d, u, vis)} | u in vis && u !in stop :: u in q || Expanded(g, c, d, u, vis)
  {
  }

  /** A witnessed set closed under the search step is exactly the set the seeds reach. */
  lemma SearchExact(g: Nodes, seeds: set<string>, c: set<string>, d: Dir, vis: set<string>)
    requires seeds <= vis && ClosedExcept(g, c, d, vis, {}) && Witnessed(g, seeds, c, d, vis)
    ensures forall v :: v in vis <==> Reaches(g, seeds, c, d, v)
  {
    forall v | Reaches(g, seeds, c, d, v)
      ensures v in vis
    {
      var s: string, p: seq<Edge> :| s in seeds && PathFrom(g, d, c, p, s, v);
      ClosedReaches(g, d, c, vis, {}, p, s, v);
    }
  }

  /** The search queue starts with the seeds, in any order. */
  method Enqueue(seeds: set<string>) returns (q: seq<string>)
    ensures forall v :: v in q <==> v in seeds
  {
    q := [];
    var todo := seeds;
    while todo != {}
      invariant todo <= seeds
      invariant forall v :: v in q <==> v in seeds && v !in todo
      decreases todo
    {
      var v :| v in todo;
      q := q + [v];
      todo := todo - {v};
    }
  }

  /**
   * One round of the search loop: look at each edge of `v` on side `d` and
   * enter every allowed neighbour not yet visited, queueing it.
   */
  method ExpandNode(g: Nodes, ghost seeds: set<string>, c: set<string>, d: Dir, v: string,
                    visited0: set<string>, q0: seq<string>) returns (visited: set<string>, q: seq<string>)
    requires v in visited0 && Witnessed(g, seeds, c, d, visited0) && Pending(g, c, d, visited0, q0, v, {})
    requires forall j | 0 <= j < |q0| :: q0[j] in visited0
    ensures visited0 <= visited <= visited0 + Fars(g, d)
    ensures visited == visited0 ==> q == q0
    ensures forall j | 0 <= j < |q| :: q[j] in visited
    ensures forall u {:trigger Expanded(g, c, d, u, visited)} | u in visited :: u in q || Expanded(g, c, d, u, visited)
    ensures Witnessed(g, seeds, c, d, visited)
  {
    visited, q := visited0, q0;
    var es := Edges(g, v, d);
    var i := 0;
    while i < |es|
      invariant 0 <= i <= |es|
      invariant visited0 <= visited <= visited0 + Fars(g, d)
      invariant visited == visited0 ==> q == q0
      invariant forall j | 0 <= j < |q| :: q[j] in visited
      invariant Pending(g, c, d, visited, q, v, {})
      invariant forall j | 0 <= j < i :: Allowed(c, es[j].Far(d)) ==> es[j].Far(d) in visited
      invariant Witnessed(g, seeds, c, d, visited)
    {
      var w := es[i].Far(d);
      if Allowed(c, w) && w !in visited {
        InFars(g, d, v, es[i]);
        WitnessedAdd(g, seeds, c, d, visited, v, es[i]);
        PendingAdd(g, c, d, visited, q, v, w, {});
        visited := visited + {w};
        q := q + [w];
      }
      i := i + 1;
    }
    PendingDone(g, c, d, visited, q, v, {});
  }

  /**
   * `searchReachableNodesFromEnds` (d == In, walking to callers) and
   * `searchReachableNodesFromStarts` (d == Out, walking to callees): a
   * breadth-first search from `seeds` that enters a node only when `c` allows
   * it. The result is exactly the set of nodes some seed reaches.
   */
  method SearchReachable(g: Nodes, seeds: set<string>, c: set<string>, d: Dir) returns (visited: set<string>)
    ensures seeds <= visited
    ensures ClosedExcept(g, c, d, visited, {})
    ensures forall v :: v in visited <==> Reaches(g, seeds, c, d, v)
  {
    var q := Enqueue(seeds);
    visited := seeds;
    forall v | v in seeds
      ensures Reaches(g, seeds, c, d, v)
    {
      assert PathFrom(g, d, c, [], v, v);
    }
    ghost var universe := seeds + Fars(g, d);
    while q != []
      invariant seeds <= visited <= universe
      invariant forall i | 0 <= i < |q| :: q[i] in visited
      invariant forall u {:trigger Expanded(g, c, d, u, visited)} | u in visited :: u in q || Expanded(g, c, d, u, visited)
      invariant Witnessed(g, seeds, c, d, visited)
      decreases universe - visited, |q|
    {
      var v := q[0];
      visited, q := ExpandNode(g, seeds, c, d, v, visited, q[1..]);
    }
    SearchExact(g, seeds, c, d, visited);
  }

  /** The set of nodes some seed reaches: what a search from `seeds` must return. */
  ghost function ReachSet(g: Nodes, seeds: set<string>, c: set<string>, d: Dir): set<string> {
    set v | v in seeds + Fars(g, d) && Reaches(g, seeds, c, d, v)
  }

  /** A reached node is a seed or the far end of some edge. */
  lemma ReachesBounded(g: Nodes, seeds: set<string>, c: set<string>, d: Dir, v: string)
    requires Reaches(g, seeds, c, d, v)
    ensures v in seeds + Fars(g, d)
  {
    var s: string, p: seq<Edge> :| s in seeds && PathFrom(g, d, c, p, s, v);
    if p != [] {
      var n := |p| - 1;
      if n > 0 {
        assert p[n] in Edges(g, p[n - 1].Far(d), d);
        InFars(g, d, p[n - 1].Far(d), p[n]);
      } else {
        InFars(g, d, s, p[0]);
      }
    }
  }

  /** `ReachSet` holds exactly the reached nodes. */
  lemma ReachSetSpec(g: Nodes, seeds: set<string>, c: set<string>, d: Dir)
    ensures forall v :: v in ReachSet(g, seeds, c, d) <==> Reaches(g, seeds, c, d, v)
  {
    forall v | Reaches(g, seeds, c, d, v)
      ensures v in ReachSet(g, seeds, c, d)
    {
      ReachesBounded(g, seeds, c, d, v);
    }
  }

  /**
   * What the containment search of `findReachableNodesIR` returns: the nodes
   * the starts reach walking to callees, inside the nodes the ends reach
   * walking to callers (inside `inner`).
   */
  ghost function Contained(g: Nodes, starts: set<string>, ends: set<string>, inner: set<string>): set<string> {
    ReachSet(g, starts, ReachSet(g, ends, inner, In), Out)
  }

  /**
   * A node is kept exactly when a start reaches it walking to callees through
   * nodes that an end reaches walking to callers inside `inner`.
   */
  lemma ContainedSpec(g: Nodes, starts: set<string>, ends: set<string>, inner: set<string>)
    ensures forall v :: v in Contained(g, starts, ends, inner) <==>
              Reaches(g, starts, ReachSet(g, ends, inner, In), Out, v)
    ensures forall v :: v in ReachSet(g, ends, inner, In) <==> Reaches(g, ends, inner, In, v)
  {
    ReachSetSpec(g, starts, ReachSet(g, ends, inner, In), Out);
    ReachSetSpec(g, ends, inner, In);
  }

  /** A search result that is exactly the reached nodes is `ReachSet`. */
  lemma SearchIsReachSet(g: Nodes, seeds: set<string>, c: set<string>, d: Dir, vis: set<string>)
    requires forall v :: v in vis <==> Reaches(g, seeds, c, d, v)
    ensures vis == ReachSet(g, seeds, c, d)
  {
    ReachSetSpec(g, seeds, c, d);
  }

  /** Destination node to the example path that reaches it. */
  type PathMap = map<string, seq<Edge>>

  /** `p` is an example path from `src` to `t`: non-empty, allowed by `c`, through no destination. */
  ghost predicate ExamplePath(g: Nodes, c: set<string>, dsts: set<string>, src: string, t: string, p: seq<Edge>) {
    p != [] && PathFrom(g, Out, c, p, src, t) && Avoids(p, Out, dsts)
  }

  /** Each visited node other than `src` carries an example path; `src` carries none. */
  ghost predicate Recorded(g: Nodes, c: set<string>, dsts: set<string>, src: string, vis: set<string>, paths: PathMap) {
    && vis <= paths.Keys
    && (src in paths ==> paths[src] == [])
    && forall v {:trigger paths[v]} | v in vis && v != src :: ExamplePath(g, c, dsts, src, v, paths[v])
  }

  /** No node is queued twice. */
  predicate NoDup(q: seq<string>) {
    forall i, j | 0 <= i < j < |q| :: q[i] != q[j]
  }

  lemma RecordedAdd(g: Nodes, c: set<string>, dsts: set<string>, src: string, vis: set<string>, paths: PathMap,
                    v: string, e: Edge)
    requires Recorded(g, c, dsts, src, vis, paths) && v in vis && (v == src || v !in dsts)
    requires e in Edges(g, v, Out) && Allowed(c, e.Far(Out)) && e.Far(Out) !in vis && src in vis
    ensures Recorded(g, c, dsts, src, vis + {e.Far(Out)}, paths[e.Far(Out) := paths[v] + [e]])
  {
    var w := e.Far(Out);
    var p := paths[v];
    if v == src {
      assert PathFrom(g, Out, c, [], src, src);
    } else {
      assert ExamplePath(g, c, dsts, src, v, p);
    }
    PathExtend(g, Out, c, p, src, v, e);
    assert Avoids(p + [e], Out, dsts) by {
      forall i | 0 <= i < |p| ensures (p + [e])[i].Far(Out) !in dsts {
        assert (p + [e])[i] == p[i];
      }
    }
    var paths' := paths[w := p + [e]];
    forall u | u in vis + {w} && u != src
      ensures ExamplePath(g, c, dsts, src, u, paths'[u])
    {
      if u != w {
        assert paths'[u] == paths[u];
      }
    }
  }

  /**
   * One round of the example-path loop for a node that is expanded (the source,
   * or a node that is not a destination): every allowed, unvisited callee is
   * visited, queued, and given the node's path plus the edge.
   */
  method ExpandExample(g: Nodes, c: set<string>, dsts: set<string>, src: string, v: string,
                       visited0: set<string>, q0: seq<string>, paths0: PathMap)
    returns (visited: set<string>, q: seq<string>, paths: PathMap)
    requires v in visited0 && src in visited0 && (v == src || v !in dsts) && v !in q0
    requires Recorded(g, c, dsts, src, visited0, paths0) && Pending(g, c, Out, visited0, q0, v, dsts - {src})
    requires NoDup(q0) && forall j | 0 <= j < |q0| :: q0[j] in visited0
    ensures visited0 <= visited <= visited0 + Fars(g, Out)
    ensures visited == visited0 ==> q == q0
    ensures NoDup(q) && (forall j | 0 <= j < |q| :: q[j] in visited)
    ensures forall u :: u in q <==> u in q0 || u in visited - visited0
    ensures forall u {:trigger Expanded(g, c, Out, u, visited)} | u in visited && u !in dsts - {src} ::
              u in q || Expanded(g, c, Out, u, visited)
    ensures Recorded(g, c, dsts, src, visited, paths)
    ensures forall u | u in visited0 :: paths[u] == paths0[u]
  {
    visited, q, paths := visited0, q0, paths0;
    var es := Edges(g, v, Out);
    var i := 0;
    while i < |es|
      invariant 0 <= i <= |es|
      invariant Expanding(g, c, dsts, src, v, visited0, q0, paths0, visited, q, paths)
      invariant forall j | 0 <= j < i :: Allowed(c, es[j].Far(Out)) ==> es[j].Far(Out) in visited
    {
      visited, q, paths := ExpandEdge(g, c, dsts, src, v, visited0, q0, paths0, es[i], visited, q, paths);
      i := i + 1;
    }
    PendingDone(g, c, Out, visited, q, v, dsts - {src});
  }

  /** The invariant of the loop of `ExpandExample` over the out edges of `v`. */
  ghost predicate Expanding(g: Nodes, c: set<string>, dsts: set<string>, src: string, v: string,
                            visited0: set<string>, q0: seq<string>, paths0: PathMap,
                            visited: set<string>, q: seq<string>, paths: PathMap)
  {
    && v in visited0 && src in visited0 && (v == src || v !in dsts)
    && visited0 <= visited <= visited0 + Fars(g, Out)
    && (visited == visited0 ==> q == q0)
    && NoDup(q) && (forall j | 0 <= j < |q| :: q[j] in visited)
    && (forall u :: u in q <==> u in q0 || u in visited - visited0)
    && v !in q
    && Pending(g, c, Out, visited, q, v, dsts - {src})
    && Recorded(g, c, dsts, src, visited, paths)
    && visited0 <= paths0.Keys
    && (forall u | u in visited0 :: paths[u] == paths0[u])
  }

  /** One out edge `e` of `v` in `ExpandExample`: an allowed, unvisited far end is visited, queued and given a path. */
  method ExpandEdge(g: Nodes, c: set<string>, dsts: set<string>, src: string, v: string,
                    visited0: set<string>, q0: seq<string>, paths0: PathMap, e: Edge,
                    visited: set<string>, q: seq<string>, paths: PathMap)
    returns (visited': set<string>, q': seq<string>, paths': PathMap)
    requires e in Edges(g, v, Out)
    requires Expanding(g, c, dsts, src, v, visited0, q0, paths0, visited, q, paths)
    ensures Expanding(g, c, dsts, src, v, visited0, q0, paths0, visited', q', paths')
    ensures visited <= visited' && (Allowed(c, e.Far(Out)) ==> e.Far(Out) in visited')
  {
    visited', q', paths' := visited, q, paths;
    var w := e.Far(Out);
    if Allowed(c, w) && w !in visited {
      InFars(g, Out, v, e);
      RecordedAdd(g, c, dsts, src, visited, paths, v, e);
      PendingAdd(g, c, Out, visited, q, v, w, dsts - {src});
      paths' := paths[w := paths[v] + [e]];
      visited' := visited + {w};
      q' := q + [w];
    }
  }

  /**
   * `findExamplePath`: a breadth-first search from `src` along out edges
   * through nodes `c` allows. A destination other than `src` is recorded with
   * the path that first discovered it and is not expanded further. The result
   * holds exactly the destinations reachable that way, each with an example
   * path. The per-node scratch path is the local map `paths`.
   */
  method FindExamplePath(g: Nodes, src: string, dsts: set<string>, c: set<string>) returns (ep: PathMap)
    ensures forall t | t in ep :: t in dsts && t != src && ExamplePath(g, c, dsts, src, t, ep[t])
    ensures forall t :: t in ep <==> t in dsts && t != src && exists p :: ExamplePath(g, c, dsts, src, t, p)
  {
    ep := map[];
    var q := [src];
    var visited := {src};
    var paths: PathMap := map[src := []];
    ghost var universe := {src} + Fars(g, Out);
    while q != []
      invariant src in visited && visited <= universe
      invariant NoDup(q) && forall j | 0 <= j < |q| :: q[j] in visited
      invariant Recorded(g, c, dsts, src, visited, paths)
      invariant forall t :: t in ep <==> t in visited && t !in q && t in dsts && t != src
      invariant forall t | t in ep :: ep[t] == paths[t]
      invariant forall u {:trigger Expanded(g, c, Out, u, visited)} | u in visited && u !in dsts - {src} ::
                  u in q || Expanded(g, c, Out, u, visited)
      decreases universe - visited, |q|
    {
      var node := q[0];
      ghost var queued := q;
      q := q[1..];
      assert node !in q by {
        forall j | 0 <= j < |q| ensures q[j] != node {
          assert q[j] == queued[j + 1];
        }
      }
      if node in dsts && paths[node] != [] {
        ep := ep[node := paths[node]];
      } else {
        visited, q, paths := ExpandExample(g, c, dsts, src, node, visited, q, paths);
      }
    }
    forall t | exists p :: ExamplePath(g, c, dsts, src, t, p)
      ensures t in visited
    {
      var p :| ExamplePath(g, c, dsts, src, t, p);
      ClosedReaches(g, Out, c, visited, dsts - {src}, p, src, t);
    }
  }

  /** In a well-formed graph a forward path is a chain of out edges from its source to its end. */
  lemma PathChains(g: Nodes, c: set<string>, p: seq<Edge>, s: string, t: string)
    requires GraphOK(g) && PathFrom(g, Out, c, p, s, t) && p != []
    ensures p[0].caller == s && p[|p| - 1].callee == t && Util.Chained(p)
    ensures forall i | 0 <= i < |p| :: p[i].caller in g && p[i] in g[p[i].caller].outs
  {
    forall i | 0 <= i < |p|
      ensures p[i].caller == Reached(p, Out, s, i) && p[i].caller in g && p[i] in g[p[i].caller].outs
    {
      var h := Reached(p, Out, s, i);
      assert p[i] in Edges(g, h, Out);
      assert h in g && p[i] in g[h].outs;
    }
  }

  /** A start reaches the end `t` through an example path allowed by `c`. */
  ghost predicate Connected(g: Nodes, c: set<string>, ends: set<string>, s: string, t: string) {
    t in ends && t != s && exists p :: ExamplePath(g, c, ends, s, t, p)
  }

  /**
   * In a well-formed graph, with no inner containment set, every node of a
   * path from a start to an end survives both searches, so the path is
   * allowed by the containment set they compute.
   */
  lemma NoPairLost(g: Nodes, starts: set<string>, ends: set<string>, back: set<string>, contain: set<string>,
                   p: seq<Edge>, s: string, t: string)
    requires GraphOK(g)
    requires forall v :: v in back <==> Reaches(g, ends, {}, In, v)
    requires forall v :: v in contain <==> Reaches(g, starts, back, Out, v)
    requires s in starts && t in ends && PathFrom(g, Out, {}, p, s, t)
    ensures PathFrom(g, Out, contain, p, s, t)
  {
    forall i | 0 <= i < |p|
      ensures p[i].Far(Out) in back
    {
      var v := p[i].Far(Out);
      PathSuffix(g, Out, {}, p, s, t, i + 1);
      ReversePath(g, p[i + 1..], v, t);
      assert t in ends && PathFrom(g, In, {}, Rev(p[i + 1..]), t, v);
    }
    PathWiden(g, Out, {}, back, p, s, t);
    forall i | 0 <= i < |p|
      ensures p[i].Far(Out) in contain
    {
      PathPrefix(g, Out, back, p, s, t, i + 1);
      assert s in starts && PathFrom(g, Out, back, p[..i + 1], s, p[i].Far(Out));
    }
    PathWiden(g, Out, {}, contain, p, s, t);
  }

  /** Start node to its example paths. */
  type Paths = map<string, PathMap>

  /**
   * With the searches' results characterised as reachability, every start-end
   * pair joined by an unrestricted example path is recorded in `ep`.
   */
  lemma NoStartLost(g: Nodes, starts: set<string>, ends: set<string>, back: set<string>, contain: set<string>, ep: Paths)
    requires GraphOK(g)
    requires forall v :: v in back <==> Reaches(g, ends, {}, In, v)
    requires forall v :: v in contain <==> Reaches(g, starts, back, Out, v)
    requires forall s | s in ep :: forall t :: t in ep[s] <==> Connected(g, contain, ends, s, t)
    requires forall s, t | s in starts && Connected(g, contain, ends, s, t) :: s in ep
    ensures forall s, t, p | s in starts && ExamplePath(g, {}, ends, s, t, p) && t in ends && t != s ::
              s in ep && t in ep[s]
  {
    forall s, t, p | s in starts && ExamplePath(g, {}, ends, s, t, p) && t in ends && t != s
      ensures s in ep && t in ep[s]
    {
      NoPairLost(g, starts, ends, back, contain, p, s, t);
      assert ExamplePath(g, contain, ends, s, t, p);
      assert Connected(g, contain, ends, s, t);
    }
  }

  /** The loop of `findReachableNodesIR` over the starts: one example-path search each. */
  method ExamplePaths(g: Nodes, starts: set<string>, ends: set<string>, contain: set<string>) returns (ep: Paths)
    ensures ep.Keys <= starts
    ensures forall s | s in ep :: ep[s] != map[] && forall t :: t in ep[s] <==> Connected(g, contain, ends, s, t)
    ensures forall s, t | s in ep && t in ep[s] :: ExamplePath(g, contain, ends, s, t, ep[s][t])
    ensures forall s, t | s in starts && Connected(g, contain, ends, s, t) :: s in ep
  {
    ep := map[];
    var todo := starts;
    while todo != {}
      invariant todo <= starts && ep.Keys <= starts - todo
      invariant forall s | s in ep :: ep[s] != map[] && forall t :: t in ep[s] <==> Connected(g, contain, ends, s, t)
      invariant forall s, t | s in ep && t in ep[s] :: ExamplePath(g, contain, ends, s, t, ep[s][t])
      invariant forall s, t | s in starts - todo && Connected(g, contain, ends, s, t) :: s in ep
      decreases todo
    {
      var k :| k in todo;
      var found := FindExamplePath(g, k, ends, contain);
      if found != map[] {
        ep := ep[k := found];
      }
      todo := todo - {k};
    }
  }

  /**
   * `findReachableNodesIR`: the backward search from the ends, then the
   * forward search from the starts inside it, then one example-path search per
   * start, keeping the starts that found something. The containment set holds
   * the starts; every recorded path is an example path inside it; and, in a
   * well-formed graph searched without an inner set, every start-end pair
   * joined by a path that passes through no end is recorded.
   */
  method FindReachableNodes(g: Nodes, starts: set<string>, ends: set<string>, inner: set<string>)
    returns (contain: set<string>, ep: Paths)
    ensures starts <= contain
    ensures contain == Contained(g, starts, ends, inner)
    ensures ep.Keys <= starts
    ensures forall s | s in ep :: ep[s] != map[] && forall t :: t in ep[s] <==> Connected(g, contain, ends, s, t)
    ensures forall s, t | s in ep && t in ep[s] :: ExamplePath(g, contain, ends, s, t, ep[s][t])
    ensures GraphOK(g) && inner == {} ==>
              forall s, t, p | s in starts && ExamplePath(g, {}, ends, s, t, p) && t in ends && t != s ::
                s in ep && t in ep[s]
    ensures GraphOK(g) && inner == {} ==>
              forall s, t, p | s in starts && t in ends && PathFrom(g, Out, {}, p, s, t) :: PathFrom(g, Out, contain, p, s, t)
  {
    var back := SearchReachable(g, ends, inner, In);
    contain := SearchReachable(g, starts, back, Out);
    SearchIsReachSet(g, ends, inner, In, back);
    SearchIsReachSet(g, starts, back, Out, contain);
    ep := ExamplePaths(g, starts, ends, contain);
    if GraphOK(g) && inner == {} {
      NoStartLost(g, starts, ends, back, contain, ep);
      forall s, t, p | s in starts && t in ends && PathFrom(g, Out, {}, p, s, t)
        ensures PathFrom(g, Out, contain, p, s, t)
      {
        NoPairLost(g, starts, ends, back, contain, p, s, t);
      }
    }
  }

  /**
   * `GetStartAndEndFromExamplePath`: nothing for an absent map; otherwise the
   * sources and the destinations of its non-empty paths.
   */
  function StartsAndEnds(ep: Option<Paths>): (r: Option<(set<string>, set<string>)>)
    ensures r.None? <==> ep.None?
    ensures r.Some? ==> forall s | s in r.value.0 :: s in ep.value && exists t | t in ep.value[s] :: ep.value[s][t] != []
    ensures r.Some? ==> forall s, t | s in ep.value && t in ep.value[s] && ep.value[s][t] != [] :: s in r.value.0 && t in r.value.1
    ensures r.Some? ==> forall t | t in r.value.1 :: exists s | s in ep.value :: t in ep.value[s] && ep.value[s][t] != []
  {
    if ep.None? then None
    else
      var m := ep.value;
      Some((set s, t | s in m && t in m[s] && m[s][t] != [] :: s, set s, t | s in m && t in m[s] && m[s][t] != [] :: t))
  }

  /** The ends of the non-empty paths of `ep`, none for nothing. */
  function FoundEnds(ep: Option<Paths>): set<string> {
    if ep.Some? then StartsAndEnds(ep).value.1 else {}
  }

  /** On what `FindReachableNodes` returns, the starts are exactly its keys and the ends are ends. */
  lemma StartsAndEndsOfSearch(g: Nodes, contain: set<string>, ends: set<string>, ep: Paths)
    requires forall s | s in ep :: ep[s] != map[]
    requires forall s, t | s in ep && t in ep[s] :: t in ends && ExamplePath(g, contain, ends, s, t, ep[s][t])
    ensures StartsAndEnds(Some(ep)).value.0 == ep.Keys
    ensures StartsAndEnds(Some(ep)).value.1 <= ends
  {
    var r := StartsAndEnds(Some(ep)).value;
    forall s | s in ep ensures s in r.0 {
      assert ep[s] != map[];
      var t :| t in ep[s].Keys;
      assert t in ep[s];
      var p := ep[s][t];
      assert t in ends;
      assert ExamplePath(g, contain, ends, s, t, p);
    }
  }
}

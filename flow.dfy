/**
 * The flow: the layers of a configuration over one call graph, and the
 * fixpoint that finds, between every two adjacent layers, example paths whose
 * call chains pass the parent check, skipping the functions that break it.
 */
module Flows {
  import opened Wrappers
  import opened IR
  import opened Modes
  import opened Search
  import opened Chains
  import opened Entities
  import opened Layers
  import opened Skips
  import Graph
  import Config

  // ---------------------------------------------------------------------------
  // The chain check over all example paths

  /** Every function after the first of the path's chain has its parent earlier in the chain. */
  ghost predicate ChainPasses(g: Nodes, p: seq<Edge>) {
    forall i | 0 < i < |FuncChain(g, p)| :: ParentOK(FuncChain(g, p), i)
  }

  /** Every non-empty recorded path passes the chain check. */
  ghost predicate ChecksPass(g: Nodes, ep: Paths) {
    forall s, t | s in ep && t in ep[s] && ep[s][t] != [] :: ChainPasses(g, ep[s][t])
  }

  /** No recorded path is empty. */
  ghost predicate NonEmptyPaths(ep: Paths) {
    forall s, t | s in ep && t in ep[s] :: ep[s][t] != []
  }

  /** The issue loop of one row of example paths: the function each failing chain reports. */
  method CollectRow(g: Nodes, row: PathMap) returns (iss: set<string>)
    ensures iss == {} <==> forall t | t in row && row[t] != [] :: ChainPasses(g, row[t])
    ensures GraphOK(g) ==> iss <= g.Keys
  {
    iss := {};
    var todo := row.Keys;
    while todo != {}
      invariant todo <= row.Keys
      invariant iss == {} <==> forall t | t in row.Keys - todo && row[t] != [] :: ChainPasses(g, row[t])
      invariant GraphOK(g) ==> iss <= g.Keys
      decreases todo
    {
      var t :| t in todo;
      var ok, issue := CheckCallEdgeChain(g, row[t]);
      if !ok && issue.Some? {
        iss := iss + {issue.value.addr};
        if GraphOK(g) {
          var i :| 0 < i < |FuncChain(g, row[t])| && issue == Some(FuncChain(g, row[t])[i - 1]);
          IssueInGraph(g, row[t], i);
        }
      }
      todo := todo - {t};
    }
  }

  /**
   * The issue loop of `findAllBipartite` (the Addr of what every failing chain
   * reports): empty iff every non-empty path passes, and in a well-formed
   * graph only node keys.
   */
  method CollectIssues(g: Nodes, ep: Paths) returns (iss: set<string>)
    ensures iss == {} <==> ChecksPass(g, ep)
    ensures GraphOK(g) ==> iss <= g.Keys
  {
    iss := {};
    var todo := ep.Keys;
    while todo != {}
      invariant todo <= ep.Keys
      invariant iss == {} <==> forall s, t | s in ep.Keys - todo && t in ep[s] && ep[s][t] != [] :: ChainPasses(g, ep[s][t])
      invariant GraphOK(g) ==> iss <= g.Keys
      decreases todo
    {
      var s :| s in todo;
      var r := CollectRow(g, ep[s]);
      iss := iss + r;
      todo := todo - {s};
    }
  }

  // ---------------------------------------------------------------------------
  // What the forward pass records

  /**
   * `ep` is what the search from `starts` to `ends` records: its keys are
   * starts, every row is non-empty and holds exactly the ends connected to
   * its start inside the containment set, each by an example path; and in a
   * well-formed graph no start with a path to an end is left out.
   */
  ghost predicate SearchedPaths(g: Nodes, starts: set<string>, ends: set<string>, ep: Paths) {
    && ep.Keys <= starts
    && (forall s | s in ep :: ep[s] != map[] && forall t :: t in ep[s] <==> Connected(g, Contained(g, starts, ends, {}), ends, s, t))
    && (forall s, t | s in ep && t in ep[s] :: ExamplePath(g, Contained(g, starts, ends, {}), ends, s, t, ep[s][t]))
    && (GraphOK(g) ==>
          forall s, t, p | s in starts && ExamplePath(g, {}, ends, s, t, p) && t in ends && t != s :: s in ep && t in ep[s])
  }

  /**
   * Every recorded path is a non-empty call path of `g` from its start to its
   * end, the end is in `ends`, and no end lies strictly inside the path.
   */
  ghost predicate PathsBetween(g: Nodes, ep: Paths, ends: set<string>) {
    forall s, t | s in ep && t in ep[s] :: t in ends && ExamplePath(g, {}, ends, s, t, ep[s][t])
  }

  /** What the search records are call paths of the graph between its starts and its ends. */
  lemma SearchedBetween(g: Nodes, starts: set<string>, ends: set<string>, ep: Paths)
    requires SearchedPaths(g, starts, ends, ep)
    ensures PathsBetween(g, ep, ends) && NonEmptyPaths(ep)
  {
    forall s, t | s in ep && t in ep[s] ensures t in ends && ExamplePath(g, {}, ends, s, t, ep[s][t]) {
      assert Connected(g, Contained(g, starts, ends, {}), ends, s, t);
      PathWiden(g, Out, Contained(g, starts, ends, {}), {}, ep[s][t], s, t);
    }
  }

  /** The search of the forward pass, with no inner containment set: what it records, and its starts are its keys. */
  method SearchBetween(g: Nodes, starts: set<string>, ends: set<string>) returns (ep: Paths)
    ensures SearchedPaths(g, starts, ends, ep)
    ensures NonEmptyPaths(ep) && StartsAndEnds(Some(ep)).value.0 == ep.Keys
  {
    var contain;
    contain, ep := FindReachableNodes(g, starts, ends, {});
    SearchedBetween(g, starts, ends, ep);
    StartsAndEndsOfSearch(g, contain, ends, ep);
  }

  /** Keeping some of the pairs keeps them call paths between the same ends. */
  lemma SubPathsBetween(g: Nodes, a: Paths, b: Paths, ends: set<string>)
    requires SubPaths(Some(a), Some(b)) && PathsBetween(g, b, ends)
    ensures PathsBetween(g, a, ends) && a.Keys <= b.Keys
  {
  }

  // ---------------------------------------------------------------------------
  // The filter of the backward sweep

  /** One row of the filter: the ends `keep` lacks are deleted. */
  method FilterRow(row: PathMap, keep: set<string>) returns (r: PathMap)
    ensures r.Keys == row.Keys * keep
    ensures forall t | t in r :: r[t] == row[t]
  {
    r := row;
    var todo := row.Keys;
    while todo != {}
      invariant todo <= row.Keys
      invariant r.Keys == (row.Keys - todo) * keep + todo
      invariant forall t | t in r :: r[t] == row[t]
      decreases todo
    {
      var t :| t in todo;
      if t !in keep {
        r := r - {t};
      }
      todo := todo - {t};
    }
  }

  /** The filter of a layer's example paths: the rows left without an end are deleted too. */
  method FilterExamplePath(ep: Paths, keep: set<string>) returns (r: Paths)
    ensures r == FilterEnds(ep, keep)
  {
    ghost var f := FilterEnds(ep, keep);
    r := ep;
    var todo := ep.Keys;
    while todo != {}
      invariant todo <= ep.Keys
      invariant forall s :: s in r <==> s in todo || s in f
      invariant forall s | s in r :: r[s] == if s in todo then ep[s] else f[s]
      decreases todo
    {
      var s :| s in todo;
      var row := FilterRow(ep[s], keep);
      assert row == KeptEnds(ep[s], keep);
      if row == map[] {
        r := r - {s};
      } else {
        r := r[s := row];
      }
      todo := todo - {s};
    }
    assert r.Keys == f.Keys;
  }

  /** The ends of every row of `ep` (if any) are in `keep`, and no row is empty. */
  ghost predicate EndsWithin(ep: Option<Paths>, keep: set<string>) {
    ep.Some? ==> forall s | s in ep.value :: ep.value[s] != map[] && forall t | t in ep.value[s] :: t in keep
  }

  /** `a` keeps some of the starts and pairs of `b`, with the same paths. */
  ghost predicate SubPaths(a: Option<Paths>, b: Option<Paths>) {
    && (a.Some? <==> b.Some?)
    && (a.Some? ==> a.value.Keys <= b.value.Keys)
    && (a.Some? ==> forall s, t | s in a.value && t in a.value[s] :: s in b.value && t in b.value[s] && a.value[s][t] == b.value[s][t])
  }

  /** Keeping some of the pairs keeps the checks of what is kept. */
  lemma SubPathsPass(g: Nodes, a: Paths, b: Paths)
    requires SubPaths(Some(a), Some(b)) && NonEmptyPaths(b) && ChecksPass(g, b)
    ensures NonEmptyPaths(a) && ChecksPass(g, a)
  {
  }

  /** The filter keeps some of the pairs and leaves rows ending only in `keep`. */
  lemma FilterOptSpec(ep: Option<Paths>, keep: set<string>)
    ensures SubPaths(FilterOpt(ep, keep), ep) && EndsWithin(FilterOpt(ep, keep), keep)
  {
    if ep.Some? {
      FilterEndsSpec(ep.value, keep);
    }
  }

  /**
   * Snapshots of the caches `ds` and example paths `eps` of every layer,
   * against the same of the start `ds0`, `eps0`, and the layers' patterns
   * `css`: one of each per layer, one cache per entity.
   */
  ghost predicate SweepShape(css: seq<seq<Option<Config.Entity>>>, ds0: seq<seq<Cache>>, eps0: seq<Option<Paths>>,
                             ds: seq<seq<Cache>>, eps: seq<Option<Paths>>)
  {
    && |ds0| == |css| && |eps0| == |css| && |ds| == |css| && |eps| == |css|
    && forall m | 0 <= m < |css| :: |ds0[m]| == |css[m]| && |ds[m]| == |css[m]|
  }

  /**
   * Layer `m` once the backward sweep has run its steps from the
   * last-but-one layer down to `i + 1`: a layer below the last-but-one whose
   * next layer was swept has its paths filtered to the in nodes that layer
   * now holds and its out caches trimmed to the starts left; a layer whose
   * own step ran is swept after that; the rest is as it was.
   */
  ghost predicate LayerSwept(css: seq<seq<Option<Config.Entity>>>, g: Nodes, rx: Regex, ds0: seq<seq<Cache>>, eps0: seq<Option<Paths>>,
                             ds: seq<seq<Cache>>, eps: seq<Option<Paths>>, i: int, m: int)
    requires SweepShape(css, ds0, eps0, ds, eps) && 0 <= m < |css|
  {
    var trimmed := i <= m < |css| - 2;
    var swept := i < m <= |css| - 2;
    var t := if trimmed then ApplyEach(ds0[m], css[m], TrimOp(Out, KeysOf(eps[m])), g, rx) else ds0[m];
    && eps[m] == (if trimmed then FilterOpt(eps0[m], OnlyReadOf(ds[m + 1], css[m + 1], In)) else eps0[m])
    && ds[m] == (if swept then ApplyEach(t, css[m], SweepOp, g, rx) else t)
  }

  /** Every layer as `LayerSwept` says, after the steps down to `i + 1` (all of them and the last sweep of layer 0 when `i` is -1). */
  ghost predicate SweptAbove(css: seq<seq<Option<Config.Entity>>>, g: Nodes, rx: Regex, ds0: seq<seq<Cache>>, eps0: seq<Option<Paths>>,
                             ds: seq<seq<Cache>>, eps: seq<Option<Paths>>, i: int)
  {
    && SweepShape(css, ds0, eps0, ds, eps)
    && -1 <= i <= |css| - 2
    && forall m | 0 <= m < |css| :: LayerSwept(css, g, rx, ds0, eps0, ds, eps, i, m)
  }

  /**
   * Step `i` of the backward sweep: layer `i` is swept, then the paths of
   * layer `i - 1` are filtered to the in nodes layer `i` holds and its out
   * caches trimmed to the starts left; nothing else changes.
   */
  lemma SweptStep(css: seq<seq<Option<Config.Entity>>>, g: Nodes, rx: Regex, ds0: seq<seq<Cache>>, eps0: seq<Option<Paths>>,
                  ds: seq<seq<Cache>>, eps: seq<Option<Paths>>, ds': seq<seq<Cache>>, eps': seq<Option<Paths>>, i: int)
    requires SweptAbove(css, g, rx, ds0, eps0, ds, eps, i) && 0 <= i
    requires SweepShape(css, ds0, eps0, ds', eps')
    requires ds'[i] == ApplyEach(ds[i], css[i], SweepOp, g, rx)
    requires 0 < i ==> eps'[i - 1] == FilterOpt(eps[i - 1], OnlyReadOf(ds'[i], css[i], In))
    requires 0 < i ==> ds'[i - 1] == ApplyEach(ds[i - 1], css[i - 1], TrimOp(Out, KeysOf(eps'[i - 1])), g, rx)
    requires forall m | 0 <= m < |css| && m != i && m != i - 1 :: ds'[m] == ds[m]
    requires forall m | 0 <= m < |css| && m != i - 1 :: eps'[m] == eps[m]
    ensures SweptAbove(css, g, rx, ds0, eps0, ds', eps', i - 1)
  {
    var below := i - 1;
    forall m | 0 <= m < |css| ensures LayerSwept(css, g, rx, ds0, eps0, ds', eps', below, m) {
      assert LayerSwept(css, g, rx, ds0, eps0, ds, eps, i, m);
      if m + 1 < |css| && m + 1 != i && m + 1 != i - 1 {
        assert ds'[m + 1] == ds[m + 1];
      }
    }
  }

  /**
   * After the whole sweep, every layer's paths keep some of their pairs, and
   * every layer's paths but the last two's end in the in nodes the next
   * layer holds.
   */
  lemma SweptPaths(css: seq<seq<Option<Config.Entity>>>, g: Nodes, rx: Regex, ds0: seq<seq<Cache>>, eps0: seq<Option<Paths>>,
                   ds: seq<seq<Cache>>, eps: seq<Option<Paths>>)
    requires SweptAbove(css, g, rx, ds0, eps0, ds, eps, -1)
    ensures forall m | 0 <= m < |css| :: SubPaths(eps[m], eps0[m])
    ensures forall m | 0 <= m < |css| - 2 :: EndsWithin(eps[m], OnlyReadOf(ds[m + 1], css[m + 1], In))
  {
    forall m | 0 <= m < |css|
      ensures SubPaths(eps[m], eps0[m])
      ensures m < |css| - 2 ==> EndsWithin(eps[m], OnlyReadOf(ds[m + 1], css[m + 1], In))
    {
      assert LayerSwept(css, g, rx, ds0, eps0, ds, eps, -1, m);
      if m < |css| - 2 {
        FilterOptSpec(eps0[m], OnlyReadOf(ds[m + 1], css[m + 1], In));
      } else {
        FilterOptSpec(eps0[m], {});
        assert SubPaths(eps0[m], eps0[m]);
      }
    }
  }

  // ---------------------------------------------------------------------------
  // The minimal graph

  /** The names of the functions of `s` that are nodes of `g`. */
  ghost function NamesOf(g: Nodes, s: set<string>): set<string> {
    set k | k in s && k in g :: g[k].func.name
  }

  /** The name filter of `UpdateMinGraph`. */
  function InNames(names: set<string>): string -> bool {
    n => n in names
  }

  /** The name loop of `UpdateMinGraph`: the names of the functions of `s`, skipping what has no function. */
  method CollectNames(g: Nodes, s: set<string>) returns (names: set<string>)
    ensures forall n :: n in names <==> exists k | k in s && k in g :: g[k].func.name == n
    ensures names == NamesOf(g, s)
  {
    names := {};
    var todo := s;
    while todo != {}
      invariant todo <= s
      invariant names == NamesOf(g, s - todo)
      decreases todo
    {
      var k :| k in todo;
      if k in g {
        names := names + {g[k].func.name};
      }
      todo := todo - {k};
      assert s - todo == (s - (todo + {k})) + {k};
    }
  }

  /** Filtering by the names of `kept` keeps every node of `kept`, and only nodes of `g`. */
  lemma MinGraphKeeps(g: Nodes, kept: set<string>)
    requires GraphOK(g)
    ensures var r := FilteredNodes(g, InNames(NamesOf(g, kept)));
      && GraphOK(r)
      && r.Keys <= g.Keys
      && (forall k | k in kept && k in g :: k in r)
      && (forall k | k in r :: exists j | j in kept && j in g :: g[j].func.name == g[k].func.name)
      && (forall k :: k in r <==> k in g && k != "" && g[k].func.name in NamesOf(g, kept))
  {
    var keep := InNames(NamesOf(g, kept));
    FilteredSpec(g, keep);
    forall k | k in kept && k in g ensures k in FilteredNodes(g, keep) {
      assert g[k].func.name in NamesOf(g, kept);
      assert Keeps(g, k, keep);
    }
  }

  /**
   * The minimal node set of `GetMinNodeSet`: the union, over every pair of
   * adjacent layers searched, of what the containment search keeps.
   */
  ghost function MinSet(g: Nodes, starts: seq<set<string>>, ends: seq<set<string>>): set<string>
    requires |starts| == |ends|
  {
    if starts == [] then {}
    else MinSet(g, starts[..|starts| - 1], ends[..|ends| - 1]) + Contained(g, starts[|starts| - 1], ends[|ends| - 1], {})
  }

  /** One more pair searched adds its contain set. */
  lemma MinSetAppend(g: Nodes, starts: seq<set<string>>, ends: seq<set<string>>, s: set<string>, e: set<string>)
    requires |starts| == |ends|
    ensures MinSet(g, starts + [s], ends + [e]) == MinSet(g, starts, ends) + Contained(g, s, e, {})
  {
    assert (starts + [s])[..|starts|] == starts;
    assert (ends + [e])[..|ends|] == ends;
  }

  /** `minSet` is `MinSet` of the pairs so far, holds their starts and, in a well-formed graph, covers their paths. */
  ghost predicate MinSoFar(g: Nodes, starts: seq<set<string>>, ends: seq<set<string>>, minSet: set<string>) {
    && |starts| == |ends| && minSet == MinSet(g, starts, ends)
    && (forall m | 0 <= m < |starts| :: starts[m] <= minSet)
    && (GraphOK(g) ==> forall m | 0 <= m < |starts| :: Covers(g, starts[m], ends[m], minSet))
  }

  /** The invariant of the loop of `GetMinNodeSet` survives one more pair searched. */
  lemma MinSetStep(g: Nodes, starts: seq<set<string>>, ends: seq<set<string>>, minSet: set<string>,
                   s: set<string>, e: set<string>, contain: set<string>)
    requires |starts| == |ends| && minSet == MinSet(g, starts, ends)
    requires forall m | 0 <= m < |starts| :: starts[m] <= minSet
    requires GraphOK(g) ==> forall m | 0 <= m < |starts| :: Covers(g, starts[m], ends[m], minSet)
    requires s <= contain && contain == Contained(g, s, e, {})
    requires GraphOK(g) ==>
               forall a, t, p | a in s && t in e && PathFrom(g, Out, {}, p, a, t) :: PathFrom(g, Out, contain, p, a, t)
    ensures var st, en, m := starts + [s], ends + [e], minSet + contain;
      && m == MinSet(g, st, en)
      && (forall i | 0 <= i < |st| :: st[i] <= m)
      && (GraphOK(g) ==> forall i | 0 <= i < |st| :: Covers(g, st[i], en[i], m))
  {
    var st, en, m := starts + [s], ends + [e], minSet + contain;
    MinSetAppend(g, starts, ends, s, e);
    if GraphOK(g) {
      ContainCovers(g, s, e, contain);
      forall i | 0 <= i < |st| ensures Covers(g, st[i], en[i], m) {
        if i < |starts| {
          CoversGrow(g, starts[i], ends[i], minSet, m);
        } else {
          CoversGrow(g, s, e, contain, m);
        }
      }
    }
  }

  /**
   * A node is in the minimal node set exactly when, for some pair, a start
   * reaches it walking to callees through nodes that reach an end walking to
   * callers.
   */
  lemma {:induction false} MinSetSpec(g: Nodes, starts: seq<set<string>>, ends: seq<set<string>>)
    requires |starts| == |ends|
    ensures forall v :: v in MinSet(g, starts, ends) <==>
              exists i | 0 <= i < |starts| :: Reaches(g, starts[i], ReachSet(g, ends[i], {}, In), Out, v)
    decreases |starts|
  {
    if starts != [] {
      var n := |starts| - 1;
      var s0, e0 := starts[..n], ends[..n];
      MinSetSpec(g, s0, e0);
      ReachSetSpec(g, starts[n], ReachSet(g, ends[n], {}, In), Out);
      forall v
        ensures v in MinSet(g, starts, ends) <==>
                exists i | 0 <= i < |starts| :: Reaches(g, starts[i], ReachSet(g, ends[i], {}, In), Out, v)
      {
        if v in MinSet(g, s0, e0) {
          var i :| 0 <= i < n && Reaches(g, s0[i], ReachSet(g, e0[i], {}, In), Out, v);
          assert s0[i] == starts[i] && e0[i] == ends[i];
        }
        if exists i | 0 <= i < |starts| :: Reaches(g, starts[i], ReachSet(g, ends[i], {}, In), Out, v) {
          var i :| 0 <= i < |starts| && Reaches(g, starts[i], ReachSet(g, ends[i], {}, In), Out, v);
          if i < n {
            assert s0[i] == starts[i] && e0[i] == ends[i];
          }
        }
      }
    }
  }

  /** A path forward in a well-formed graph reaches only nodes of the graph. */
  lemma PathCallees(g: Nodes, c: set<string>, p: seq<Edge>, s: string, t: string)
    requires GraphOK(g) && PathFrom(g, Out, c, p, s, t)
    ensures forall m | 0 <= m < |p| :: p[m].callee in g
  {
    if p != [] {
      PathChains(g, c, p, s, t);
    }
  }

  /** Every node a path from a start to an end reaches is in `m`. */
  ghost predicate Covers(g: Nodes, starts: set<string>, ends: set<string>, m: set<string>) {
    forall s: string, t: string, p: seq<Edge> | s in starts && t in ends && PathFrom(g, Out, {}, p, s, t) ::
      forall j | 0 <= j < |p| :: p[j].callee in m
  }

  /** A larger set covers what a smaller one does. */
  lemma CoversGrow(g: Nodes, starts: set<string>, ends: set<string>, m: set<string>, m2: set<string>)
    requires Covers(g, starts, ends, m) && m <= m2
    ensures Covers(g, starts, ends, m2)
  {
  }

  /** The nodes a search keeps cover every path between its starts and its ends. */
  lemma ContainCovers(g: Nodes, starts: set<string>, ends: set<string>, contain: set<string>)
    requires starts <= contain
    requires forall s: string, t: string, p: seq<Edge> | s in starts && t in ends && PathFrom(g, Out, {}, p, s, t) :: PathFrom(g, Out, contain, p, s, t)
    ensures Covers(g, starts, ends, contain)
  {
    forall s: string, t: string, p: seq<Edge> | s in starts && t in ends && PathFrom(g, Out, {}, p, s, t)
      ensures forall j | 0 <= j < |p| :: p[j].callee in contain
    {
      assert PathFrom(g, Out, contain, p, s, t);
      assert s in contain;
    }
  }

  /** What the kept nodes cover, the graph filtered to their names still has. */
  lemma CoversFiltered(g: Nodes, starts: set<string>, ends: set<string>, kept: set<string>)
    requires GraphOK(g) && Covers(g, starts, ends, kept)
    ensures Covers(g, starts, ends, FilteredNodes(g, InNames(NamesOf(g, kept))).Keys)
  {
    MinGraphKeeps(g, kept);
    forall s: string, t: string, p: seq<Edge> | s in starts && t in ends && PathFrom(g, Out, {}, p, s, t)
      ensures forall j | 0 <= j < |p| :: p[j].callee in FilteredNodes(g, InNames(NamesOf(g, kept))).Keys
    {
      PathCallees(g, {}, p, s, t);
    }
  }

  /** The layers are distinct valid layers with no entity in common. */
  ghost predicate Disjoint(ls: seq<Layer>) {
    && (forall i | 0 <= i < |ls| :: ls[i].Valid())
    && (forall i, j | 0 <= i < j < |ls| :: ls[i] != ls[j] && ls[i].Objs() !! ls[j].Objs())
  }

  /** `ls` is what the configured layers build: same names, and one entity per configured entity. */
  ghost predicate Built(ls: seq<Layer>, confs: seq<Config.Layer>) {
    && |ls| == |confs|
    && forall i | 0 <= i < |ls| ::
         && ls[i].name == confs[i].name
         && |ls[i].entities| == |confs[i].entities|
         && forall j | 0 <= j < |ls[i].entities| :: ls[i].entities[j].conf == confs[i].entities[j]
  }

  /** The error of a flow of fewer than two layers. */
  const TooFewLayers := "number of layers must be at least 2"

  class Flow {
    const pkgPrefix: string
    var callgraph: Graph.Callgraph
    const layers: seq<Layer>
    const rx: Regex
    /** The saved copy of the minimal graph (the serialised buffer). */
    var snapshotRoot: Option<Node>
    var snapshot: Nodes
    var allIssueFuncs: set<string>
    var isCompleteGenerate: bool

    ghost function LayerSet(): set<Layer> {
      set i | 0 <= i < |layers| :: layers[i]
    }

    ghost function EntityObjs(): set<Entity> {
      set i, j | 0 <= i < |layers| && 0 <= j < |layers[i].entities| :: layers[i].entities[j]
    }

    /** The entities of layer `i` are among the flow's entities. */
    lemma ObjsInside(i: int)
      requires 0 <= i < |layers|
      ensures layers[i] in LayerSet() && layers[i].Objs() <= EntityObjs()
    {
    }

    ghost predicate Shape() {
      Disjoint(layers)
    }

    /**
     * The flow invariant: the graph and the snapshot are well formed, the graph
     * keeps only nodes of the snapshot, and none of them is a flagged function.
     */
    ghost predicate Valid()
      reads this`callgraph, this`snapshot, this`allIssueFuncs, callgraph
    {
      && Shape()
      && GraphOK(callgraph.nodes) && GraphOK(snapshot)
      && callgraph.nodes.Keys <= snapshot.Keys
      && (forall k | k in callgraph.nodes :: k !in allIssueFuncs)
    }

    /** Every layer cache and every entity cache is nil. */
    ghost predicate LayersCleared()
      reads LayerSet(), EntityObjs()
    {
      forall i | 0 <= i < |layers| ::
        && layers[i].nodeSet.None? && layers[i].examplePath.None?
        && forall j | 0 <= j < |layers[i].entities| :: layers[i].entities[j].Data() == Cleared
    }

    /** The caches of layers `i` onwards are nil. */
    ghost predicate ClearedFrom(i: int)
      reads EntityObjs()
    {
      forall m | 0 <= m < |layers| && i <= m :: layers[m].Datas() == ClearedAll(|layers[m].entities|)
    }

    /** Nil caches from layer `a` on are nil from any later layer on. */
    lemma ClearedFromLater(a: int, b: int)
      requires ClearedFrom(a) && a <= b
      ensures ClearedFrom(b)
    {
    }

    /** Nil caches hold nothing a trim could have narrowed, in any graph. */
    lemma ClearedUntrimmed(g: Nodes)
      requires LayersCleared()
      ensures UntrimmedFrom(g, 0) && ClearedFrom(0)
    {
      forall m | 0 <= m < |layers| ensures AllUntrimmed(layers[m].Datas(), layers[m].Confs(), g, rx) {
        assert forall j | 0 <= j < |layers[m].entities| :: layers[m].Datas()[j] == Cleared;
      }
    }

    /** Every layer but the last holds example paths, none empty and every one passing the chain check. */
    ghost predicate PassedForward()
      reads this`callgraph, callgraph, LayerSet()
    {
      forall i | 0 <= i < |layers| - 1 ::
        && layers[i].examplePath.Some?
        && NonEmptyPaths(layers[i].examplePath.value)
        && ChecksPass(callgraph.nodes, layers[i].examplePath.value)
    }

    /**
     * What a finished generation leaves: every layer but the last holds
     * example paths, none empty and every one passing the chain check, which
     * are anchored in the call graph as `Anchored` says; and each layer's
     * paths, but the last two layers', end in the in nodes the next layer's
     * entities kept.
     */
    ghost predicate Generated()
      reads this`callgraph, callgraph, LayerSet(), EntityObjs()
    {
      && |layers| >= 2
      && PassedForward()
      && Anchored()
      && (forall m | 1 <= m < |layers| - 1 :: EndsWithin(layers[m - 1].examplePath, layers[m].AllOnlyRead(In)))
    }

    /**
     * Every layer but the last holds paths of the call graph ending in the in
     * nodes the next layer's patterns select, and the first layer's paths
     * start in the out nodes its own patterns select.
     */
    ghost predicate Anchored()
      reads this`callgraph, callgraph, LayerSet()
    {
      && (forall i | 0 <= i < |layers| - 1 ::
            && layers[i].examplePath.Some?
            && PathsBetween(callgraph.nodes, layers[i].examplePath.value, ClearedAnswer(layers[i + 1].Confs(), callgraph.nodes, rx, In)))
      && (layers != [] ==> KeysOf(layers[0].examplePath) <= ClearedAnswer(layers[0].Confs(), callgraph.nodes, rx, Out))
    }

    /**
     * The first `n` steps of the forward pass searched from `starts[m]` to
     * `ends[m]` and recorded what layer `m` holds: the ends are what the
     * next layer's patterns select, the first starts what the first layer's
     * select, and every later start set the out nodes of a layer whose in
     * nodes were trimmed to the ends the step before found.
     */
    ghost predicate SearchedSoFar(g: Nodes, starts: seq<set<string>>, ends: seq<set<string>>, eps: seq<Option<Paths>>, n: int) {
      && 0 <= n <= |starts| && n <= |ends| && n < |layers| && |eps| == |layers|
      && forall m | 0 <= m < n :: StepSearched(g, starts[m], ends[m], m, eps[m], PrevPaths(eps, m))
    }

    /** The paths of the layer before `m` among `eps`, none before the first. */
    ghost function PrevPaths(eps: seq<Option<Paths>>, m: int): Option<Paths> {
      if 0 < m <= |eps| then eps[m - 1] else None
    }

    /** One more step searched, the paths recorded before it kept. */
    lemma SearchedSoFarStep(g: Nodes, starts: seq<set<string>>, ends: seq<set<string>>, eps: seq<Option<Paths>>,
                            eps': seq<Option<Paths>>, n: int, s: set<string>, e: set<string>)
      requires SearchedSoFar(g, starts, ends, eps, n) && |starts| == n && |ends| == n
      requires |eps'| == |eps| && n < |layers| - 1
      requires forall m | 0 <= m < n :: eps'[m] == eps[m]
      requires StepSearched(g, s, e, n, eps'[n], PrevPaths(eps', n))
      ensures SearchedSoFar(g, starts + [s], ends + [e], eps', n + 1)
    {
      forall m | 0 <= m < n + 1
        ensures StepSearched(g, (starts + [s])[m], (ends + [e])[m], m, eps'[m], PrevPaths(eps', m))
      {
        if m < n {
          assert (starts + [s])[m] == starts[m] && (ends + [e])[m] == ends[m];
          assert eps'[m] == eps[m] && PrevPaths(eps', m) == PrevPaths(eps, m);
          assert StepSearched(g, starts[m], ends[m], m, eps[m], PrevPaths(eps, m));
        } else {
          assert (starts + [s])[m] == s && (ends + [e])[m] == e;
        }
      }
    }

    /** The example paths of the layers, in order. */
    ghost function LayerPaths(): seq<Option<Paths>>
      reads LayerSet()
    {
      seq(|layers|, m requires 0 <= m < |layers| reads LayerSet() => layers[m].examplePath)
    }

    /**
     * Step `m` of the forward pass searched from `s` to `e` and recorded
     * `ep`, the paths of layer `m`, after the step before recorded `prev`.
     */
    ghost predicate StepSearched(g: Nodes, s: set<string>, e: set<string>, m: int, ep: Option<Paths>, prev: Option<Paths>)
      requires 0 <= m < |layers| - 1
    {
      && ep.Some?
      && SearchedPaths(g, s, e, ep.value)
      && e == ClearedAnswer(layers[m + 1].Confs(), g, rx, In)
      && (m == 0 ==> s == ClearedAnswer(layers[0].Confs(), g, rx, Out))
      && (0 < m ==> s == OutAfterInTrim(layers[m].Confs(), g, rx, FoundEnds(prev)))
    }

    constructor (pkgPrefix: string, callgraph: Graph.Callgraph, layers: seq<Layer>, rx: Regex)
      ensures this.pkgPrefix == pkgPrefix && this.callgraph == callgraph && this.layers == layers && this.rx == rx
      ensures snapshotRoot.None? && snapshot == map[] && allIssueFuncs == {} && !isCompleteGenerate
    {
      this.pkgPrefix := pkgPrefix;
      this.callgraph := callgraph;
      this.layers := layers;
      this.rx := rx;
      snapshotRoot, snapshot := None, map[];
      allIssueFuncs, isCompleteGenerate := {}, false;
    }

    /** `resetLayer`: every layer reset. */
    method ResetLayers()
      requires Shape()
      modifies LayerSet(), EntityObjs()
      ensures LayersCleared()
    {
      var i := 0;
      while i < |layers|
        invariant 0 <= i <= |layers|
        invariant forall m | 0 <= m < i ::
                    && layers[m].nodeSet.None? && layers[m].examplePath.None?
                    && forall j | 0 <= j < |layers[m].entities| :: layers[m].entities[j].Data() == Cleared
      {
        layers[i].ResetLayer();
        i := i + 1;
      }
    }

    /** `reset`: forget the flagged functions and reset every layer. */
    method Reset()
      requires Shape()
      modifies this`allIssueFuncs, LayerSet(), EntityObjs()
      ensures allIssueFuncs == {} && LayersCleared()
    {
      allIssueFuncs := {};
      ResetLayers();
    }

    /** `initFuryBuffer`: save the present graph. */
    method SaveSnapshot()
      modifies this`snapshot, this`snapshotRoot
      ensures snapshot == callgraph.nodes && snapshotRoot == callgraph.root
    {
      snapshot := callgraph.nodes;
      snapshotRoot := callgraph.root;
    }

    /** `resetCallgraphIR`: a new graph decoded from the saved copy. */
    method RestoreSnapshot()
      modifies this`callgraph
      ensures fresh(callgraph) && callgraph.nodes == snapshot && callgraph.root == snapshotRoot
    {
      callgraph := new Graph.Callgraph(snapshotRoot, snapshot);
    }

    /**
     * The inner loop of `skipNodeIR` for one incoming edge: for every outgoing
     * edge of the deleted node, in order, add the merged edge when the pair
     * merges. Answers whether any pair merged.
     */
    method SpliceRow(g0: Nodes, issue: set<string>, skipped: Func, inE: Edge, outs: seq<Edge>) returns (merged: bool)
      modifies callgraph
      ensures callgraph.nodes == SpliceAll(old(callgraph.nodes), g0, issue, skipped, Row(inE, outs))
      ensures merged == AnyMerge(g0, issue, Row(inE, outs))
    {
      ghost var start := callgraph.nodes;
      ghost var row := Row(inE, outs);
      merged := false;
      var j := 0;
      while j < |outs|
        invariant 0 <= j <= |outs|
        invariant callgraph.nodes == SpliceAll(start, g0, issue, skipped, row[..j])
        invariant merged == AnyMerge(g0, issue, row[..j])
      {
        var outE := outs[j];
        assert row[..j + 1][..j] == row[..j] && row[..j + 1][j] == (inE, outE);
        if DoMerge(g0, issue, inE, outE) {
          callgraph.AddEdge(g0[inE.caller].func.addr, g0[outE.callee].func.addr, MergedSite(inE, skipped, outE));
          merged := true;
        }
        j := j + 1;
      }
      assert row[..|outs|] == row;
    }

    /**
     * The body of `skipNodeIR` once node `k` is chosen: delete it, then for
     * every incoming edge and every outgoing edge it had, in that order, add
     * the merged edge when the pair merges. Answers whether any pair merged.
     */
    method SpliceOut(k: string, issue: set<string>) returns (merged: bool)
      requires k in callgraph.nodes
      modifies callgraph
      ensures callgraph.nodes == SpliceNode(old(callgraph.nodes), k, issue)
      ensures merged == AnyMerge(old(callgraph.nodes), issue, Pairs(old(callgraph.nodes)[k].ins, old(callgraph.nodes)[k].outs))
    {
      var g0 := callgraph.nodes;
      var skipped := g0[k].func;
      var cacheIn, cacheOut := g0[k].ins, g0[k].outs;
      callgraph.DeleteNode(k);
      ghost var start := DeleteNodeNodes(g0, k);
      merged := false;
      var i := 0;
      while i < |cacheIn|
        invariant 0 <= i <= |cacheIn|
        invariant callgraph.nodes == SpliceAll(start, g0, issue, skipped, Pairs(cacheIn[..i], cacheOut))
        invariant merged == AnyMerge(g0, issue, Pairs(cacheIn[..i], cacheOut))
      {
        var m := SpliceRow(g0, issue, skipped, cacheIn[i], cacheOut);
        merged := merged || m;
        PairsStep(start, g0, issue, skipped, cacheIn, cacheOut, i);
        i := i + 1;
      }
      assert cacheIn[..|cacheIn|] == cacheIn;
    }

    /**
     * `skipNodeIR`: pick a node whose key is flagged, splice it out; when no
     * pair merged, try again. Answers (found, merged), which always agree: it
     * stops on the first merge or when no flagged node is left.
     */
    method SkipNodeIR(issue: set<string>) returns (hasFound: bool, hasDoSkip: bool)
      requires GraphOK(callgraph.nodes)
      modifies callgraph
      ensures GraphOK(callgraph.nodes)
      ensures callgraph.nodes.Keys <= old(callgraph.nodes).Keys
      ensures hasFound == hasDoSkip
      ensures !hasDoSkip ==> forall k | k in callgraph.nodes :: k !in issue
      ensures |callgraph.nodes| <= |old(callgraph.nodes)|
      ensures hasDoSkip ==> |callgraph.nodes| < |old(callgraph.nodes)|
      ensures Spliced(old(callgraph.nodes), callgraph.nodes, issue)
      decreases |callgraph.nodes|
    {
      var hits := callgraph.nodes.Keys * issue;
      if hits == {} {
        forall k | k in callgraph.nodes ensures k !in issue {
          assert k in callgraph.nodes.Keys;
          assert k !in hits;
        }
        return false, false;
      }
      var k :| k in hits;
      hasFound := true;
      ghost var g0 := callgraph.nodes;
      hasDoSkip := SpliceOut(k, issue);
      SpliceNodeOK(g0, k, issue);
      SubsetCard(callgraph.nodes.Keys, g0.Keys - {k});
      if !hasDoSkip {
        hasFound, hasDoSkip := SkipNodeIR(issue);
      }
      SplicedStep(g0, k, issue, callgraph.nodes);
    }

    /** `skipNodesIR`: splice out flagged nodes until a call merges nothing; no flagged node is left. */
    method SkipNodesIR(issue: set<string>)
      requires GraphOK(callgraph.nodes)
      modifies callgraph
      ensures GraphOK(callgraph.nodes)
      ensures callgraph.nodes.Keys <= old(callgraph.nodes).Keys
      ensures forall k | k in callgraph.nodes :: k !in issue
      ensures Spliced(old(callgraph.nodes), callgraph.nodes, issue)
    {
      var hasDoSkip := true;
      while hasDoSkip
        invariant GraphOK(callgraph.nodes)
        invariant callgraph.nodes.Keys <= old(callgraph.nodes).Keys
        invariant !hasDoSkip ==> forall k | k in callgraph.nodes :: k !in issue
        invariant Spliced(old(callgraph.nodes), callgraph.nodes, issue)
        decreases |callgraph.nodes| + (if hasDoSkip then 1 else 0)
      {
        ghost var mid := callgraph.nodes;
        var _, skipped := SkipNodeIR(issue);
        SplicedTrans(old(callgraph.nodes), mid, callgraph.nodes, issue);
        hasDoSkip := skipped;
      }
    }

    /**
     * One layer pair `i`, `i + 1` of the forward pass of `findAllBipartite`:
     * search from the out nodes of layer `i` to the in nodes of layer `i + 1`,
     * keep the example paths in layer `i`, collect the issues of their chains,
     * and trim both layers to the starts and ends found (then refresh the in
     * side of the first layer and the out side of the last).
     */
    method ForwardStep(i: int, g: Nodes) returns (iss: set<string>)
      requires Shape() && 0 <= i < |layers| - 1
      modifies layers[i], layers[i].Objs(), layers[i + 1].Objs()
      ensures layers[i].examplePath.Some? && NonEmptyPaths(layers[i].examplePath.value)
      ensures iss == {} <==> ChecksPass(g, layers[i].examplePath.value)
      ensures GraphOK(g) ==> iss <= g.Keys
      ensures SearchedPaths(g, old(AnswerOf(layers[i].Datas(), layers[i].Confs(), g, rx, Out)),
                            old(AnswerOf(layers[i + 1].Datas(), layers[i + 1].Confs(), g, rx, In)),
                            layers[i].examplePath.value)
      ensures layers[i].Datas() ==
                TrimmedAll(FilledAll(old(layers[i].Datas()), layers[i].Confs(), g, rx, Out), layers[i].Confs(), g, rx,
                           Out, layers[i].examplePath.value.Keys, i == 0)
      ensures layers[i + 1].Datas() ==
                TrimmedAll(FilledAll(old(layers[i + 1].Datas()), layers[i + 1].Confs(), g, rx, In), layers[i + 1].Confs(), g, rx,
                           In, StartsAndEnds(layers[i].examplePath).value.1, i == |layers| - 2)
      ensures layers[i].nodeSet == old(layers[i].nodeSet)
      ensures old(ClearedFrom(i + 2)) ==> ClearedFrom(i + 2)
    {
      var ep := SearchPair(i, g);
      iss := CollectIssues(g, ep);
      var se := StartsAndEnds(Some(ep)).value;
      NarrowPair(i, g, se.0, se.1);
      layers[i].examplePath := Some(ep);
    }

    /**
     * The search of `ForwardStep`: fill the out caches of layer `i` and the
     * in caches of layer `i + 1`, and search between the nodes they answer.
     */
    method SearchPair(i: int, g: Nodes) returns (ep: Paths)
      requires Shape() && 0 <= i < |layers| - 1
      modifies layers[i].Objs(), layers[i + 1].Objs()
      ensures NonEmptyPaths(ep)
      ensures StartsAndEnds(Some(ep)).value.0 == ep.Keys
      ensures SearchedPaths(g, old(AnswerOf(layers[i].Datas(), layers[i].Confs(), g, rx, Out)),
                            old(AnswerOf(layers[i + 1].Datas(), layers[i + 1].Confs(), g, rx, In)), ep)
      ensures layers[i].Datas() == FilledAll(old(layers[i].Datas()), layers[i].Confs(), g, rx, Out)
      ensures layers[i + 1].Datas() == FilledAll(old(layers[i + 1].Datas()), layers[i + 1].Confs(), g, rx, In)
      ensures old(ClearedFrom(i + 2)) ==> ClearedFrom(i + 2)
    {
      var starts, ends := FillPair(i, g);
      ep := SearchBetween(g, starts, ends);
    }

    /**
     * The fills that open a search between layers `i` and `i + 1`: the out
     * nodes of layer `i` and the in nodes of layer `i + 1`, from their
     * caches, which keep what they computed.
     */
    method FillPair(i: int, g: Nodes) returns (s: set<string>, e: set<string>)
      requires Shape() && 0 <= i < |layers| - 1
      modifies layers[i].Objs(), layers[i + 1].Objs()
      ensures s == old(AnswerOf(layers[i].Datas(), layers[i].Confs(), g, rx, Out))
      ensures e == old(AnswerOf(layers[i + 1].Datas(), layers[i + 1].Confs(), g, rx, In))
      ensures layers[i].Datas() == FilledAll(old(layers[i].Datas()), layers[i].Confs(), g, rx, Out)
      ensures layers[i + 1].Datas() == FilledAll(old(layers[i + 1].Datas()), layers[i + 1].Confs(), g, rx, In)
      ensures old(UntrimmedFrom(g, i + 2)) ==> UntrimmedFrom(g, i + 2)
      ensures old(ClearedFrom(i + 2)) ==> ClearedFrom(i + 2)
    {
      assert layers[i].Objs() !! layers[i + 1].Objs();
      s := layers[i].GetAllNodeSet(Out, g, rx);
      e := layers[i + 1].GetAllNodeSet(In, g, rx);
    }

    /**
     * The trims of `ForwardStep`: layer `i` keeps the out nodes `keepOut`,
     * layer `i + 1` the in nodes `keepIn`; then the in side of the first
     * layer and the out side of the last are refilled.
     */
    method NarrowPair(i: int, g: Nodes, keepOut: set<string>, keepIn: set<string>)
      requires Shape() && 0 <= i < |layers| - 1
      modifies layers[i].Objs(), layers[i + 1].Objs()
      ensures layers[i].Datas() == TrimmedAll(old(layers[i].Datas()), layers[i].Confs(), g, rx, Out, keepOut, i == 0)
      ensures layers[i + 1].Datas() ==
                TrimmedAll(old(layers[i + 1].Datas()), layers[i + 1].Confs(), g, rx, In, keepIn, i == |layers| - 2)
      ensures old(ClearedFrom(i + 2)) ==> ClearedFrom(i + 2)
    {
      assert layers[i].Objs() !! layers[i + 1].Objs();
      layers[i].ApplyAll(TrimOp(Out, keepOut), g, rx);
      layers[i + 1].ApplyAll(TrimOp(In, keepIn), g, rx);
      if i == 0 {
        layers[i].ApplyAll(RefreshOp(In), g, rx);
      }
      if i == |layers| - 2 {
        layers[i + 1].ApplyAll(RefreshOp(Out), g, rx);
      }
    }

    /**
     * The forward pass of `findAllBipartite`: every layer but the last gets
     * its example paths, none empty, and the issues are empty iff every one
     * of them passes the chain check.
     */
    method ForwardPass() returns (issues: set<string>, ghost starts: seq<set<string>>, ghost ends: seq<set<string>>)
      requires Shape() && |layers| >= 2 && LayersCleared()
      modifies LayerSet(), EntityObjs()
      ensures forall i | 0 <= i < |layers| - 1 :: layers[i].examplePath.Some? && NonEmptyPaths(layers[i].examplePath.value)
      ensures issues == {} <==> forall i | 0 <= i < |layers| - 1 :: ChecksPass(callgraph.nodes, layers[i].examplePath.value)
      ensures GraphOK(callgraph.nodes) ==> issues <= callgraph.nodes.Keys
      ensures |starts| == |layers| - 1 && |ends| == |layers| - 1
      ensures SearchedSoFar(callgraph.nodes, starts, ends, LayerPaths(), |layers| - 1)
      ensures Anchored()
    {
      var g := callgraph.nodes;
      issues := {};
      starts, ends := [], [];
      ClearedUntrimmed(g);
      var i := 0;
      while i < |layers| - 1
        invariant PassedSoFar(g, issues, starts, ends, i)
      {
        i, issues, starts, ends := PassStep(i, g, issues, starts, ends);
      }
      PassFinished(g, issues, starts, ends);
    }

    /** The invariant of the forward pass, once every pair is done, gives what `ForwardPass` promises. */
    lemma PassFinished(g: Nodes, issues: set<string>, starts: seq<set<string>>, ends: seq<set<string>>)
      requires |layers| >= 2 && g == callgraph.nodes && PassedSoFar(g, issues, starts, ends, |layers| - 1)
      ensures forall i | 0 <= i < |layers| - 1 :: layers[i].examplePath.Some? && NonEmptyPaths(layers[i].examplePath.value)
      ensures issues == {} <==> forall i | 0 <= i < |layers| - 1 :: ChecksPass(g, layers[i].examplePath.value)
      ensures GraphOK(g) ==> issues <= g.Keys
      ensures |starts| == |layers| - 1 && |ends| == |layers| - 1
      ensures SearchedSoFar(g, starts, ends, LayerPaths(), |layers| - 1)
      ensures Anchored()
    {
      var eps := LayerPaths();
      assert PathsSoFar(g, issues, starts, ends, eps, |layers| - 1);
      PassedAnchored(g, issues, starts, ends, eps);
      forall m | 0 <= m < |layers| ensures layers[m].examplePath == eps[m] {
      }
    }

    /** A finished forward pass leaves every layer's paths anchored as `Anchored` says. */
    lemma PassedAnchored(g: Nodes, issues: set<string>, starts: seq<set<string>>, ends: seq<set<string>>, eps: seq<Option<Paths>>)
      requires |layers| >= 2 && PathsSoFar(g, issues, starts, ends, eps, |layers| - 1)
      ensures forall m | 0 <= m < |layers| - 1 ::
        eps[m].Some? && PathsBetween(g, eps[m].value, ClearedAnswer(layers[m + 1].Confs(), g, rx, In))
      ensures KeysOf(eps[0]) <= ClearedAnswer(layers[0].Confs(), g, rx, Out)
    {
      assert StepSearched(g, starts[0], ends[0], 0, eps[0], PrevPaths(eps, 0));
      forall m | 0 <= m < |layers| - 1
        ensures eps[m].Some? && PathsBetween(g, eps[m].value, ClearedAnswer(layers[m + 1].Confs(), g, rx, In))
      {
        assert StepSearched(g, starts[m], ends[m], m, eps[m], PrevPaths(eps, m));
        SearchedBetween(g, starts[m], ends[m], eps[m].value);
      }
    }

    /**
     * The state of the forward pass before step `i`: the layers before `i`
     * hold non-empty example paths, `issues` is empty iff they all pass the
     * chain check, the steps so far searched as `SearchedSoFar` says, the
     * caches from the next layer on are nil, and layer `i`'s were filled and
     * trimmed to the ends the previous step found.
     */
    ghost predicate PassedSoFar(g: Nodes, issues: set<string>, starts: seq<set<string>>, ends: seq<set<string>>, i: int)
      reads LayerSet(), EntityObjs()
    {
      && PathsSoFar(g, issues, starts, ends, LayerPaths(), i)
      && ClearedFrom(if i == 0 then 0 else i + 1)
      && (0 < i < |layers| - 1 ==>
            layers[i].Datas() == TrimmedAll(FilledAll(ClearedAll(|layers[i].entities|), layers[i].Confs(), g, rx, In),
                                            layers[i].Confs(), g, rx, In, FoundEnds(layers[i - 1].examplePath), false))
    }

    /** The part of `PassedSoFar` about the example paths `eps` of the layers. */
    ghost predicate PathsSoFar(g: Nodes, issues: set<string>, starts: seq<set<string>>, ends: seq<set<string>>,
                               eps: seq<Option<Paths>>, i: int)
    {
      && 0 <= i <= |layers| - 1 && |starts| == i && |ends| == i && |eps| == |layers|
      && (forall m | 0 <= m < i :: eps[m].Some? && NonEmptyPaths(eps[m].value))
      && (issues == {} <==> forall m | 0 <= m < i && eps[m].Some? :: ChecksPass(g, eps[m].value))
      && (GraphOK(g) ==> issues <= g.Keys)
      && SearchedSoFar(g, starts, ends, eps, i)
    }

    /** One more step of the forward pass on the example paths, those recorded before it kept. */
    lemma PathsSoFarStep(g: Nodes, issues: set<string>, starts: seq<set<string>>, ends: seq<set<string>>,
                         eps: seq<Option<Paths>>, eps': seq<Option<Paths>>, i: int,
                         iss: set<string>, s: set<string>, e: set<string>)
      requires PathsSoFar(g, issues, starts, ends, eps, i) && i < |layers| - 1 && |eps'| == |eps|
      requires forall m | 0 <= m < i :: eps'[m] == eps[m]
      requires eps'[i].Some? && NonEmptyPaths(eps'[i].value)
      requires (iss == {} <==> ChecksPass(g, eps'[i].value)) && (GraphOK(g) ==> iss <= g.Keys)
      requires StepSearched(g, s, e, i, eps'[i], PrevPaths(eps', i))
      ensures PathsSoFar(g, issues + iss, starts + [s], ends + [e], eps', i + 1)
    {
      SearchedSoFarStep(g, starts, ends, eps, eps', i, s, e);
      forall m | 0 <= m < i + 1 ensures eps'[m].Some? && NonEmptyPaths(eps'[m].value) {
        if m < i {
          assert eps'[m] == eps[m];
        }
      }
      var passed := forall m | 0 <= m < i && eps[m].Some? :: ChecksPass(g, eps[m].value);
      var passed' := forall m | 0 <= m < i + 1 && eps'[m].Some? :: ChecksPass(g, eps'[m].value);
      assert passed' <==> passed && ChecksPass(g, eps'[i].value);
    }

    /** Step `i` of the forward pass, with the starts and ends it searched. */
    method PassStep(i: int, g: Nodes, issues: set<string>, ghost starts: seq<set<string>>, ghost ends: seq<set<string>>)
      returns (next: int, issues': set<string>, ghost starts': seq<set<string>>, ghost ends': seq<set<string>>)
      requires Shape() && 0 <= i < |layers| - 1 && PassedSoFar(g, issues, starts, ends, i)
      modifies layers[i], layers[i].Objs(), layers[i + 1].Objs()
      ensures next == i + 1 && PassedSoFar(g, issues', starts', ends', next)
    {
      next := i + 1;
      ghost var eps := LayerPaths();
      assert PathsSoFar(g, issues, starts, ends, eps, i);
      ghost var s, e := StepAnswers(i, g);
      assert 0 < i ==> PrevPaths(eps, i) == layers[i - 1].examplePath;
      assert 0 < i ==> s == OutAfterInTrim(layers[i].Confs(), g, rx, FoundEnds(PrevPaths(eps, i)));
      assert layers[i + 1].Datas() == ClearedAll(|layers[i + 1].entities|);
      ClearedFromLater(if i == 0 then 0 else i + 1, i + 2);
      var iss := ForwardStep(i, g);
      issues' := issues + iss;
      starts', ends' := starts + [s], ends + [e];
      ghost var eps' := LayerPaths();
      forall m | 0 <= m < i ensures eps'[m] == eps[m] {
        assert layers[m] != layers[i];
      }
      assert eps'[i] == layers[i].examplePath;
      assert PrevPaths(eps', i) == PrevPaths(eps, i);
      assert StepSearched(g, s, e, i, eps'[i], PrevPaths(eps', i));
      PathsSoFarStep(g, issues, starts, ends, eps, eps', i, iss, s, e);
      assert ClearedFrom(i + 2);
    }

    /**
     * Before step `i` of the forward pass: the nodes the step will search
     * between, as the patterns and the previous step's ends determine them.
     */
    ghost method StepAnswers(i: int, g: Nodes) returns (s: set<string>, e: set<string>)
      requires Shape() && 0 <= i < |layers| - 1
      requires ClearedFrom(if i == 0 then 0 else i + 1)
      requires 0 < i ==>
                 layers[i].Datas() == TrimmedAll(FilledAll(ClearedAll(|layers[i].entities|), layers[i].Confs(), g, rx, In),
                                                 layers[i].Confs(), g, rx, In, FoundEnds(layers[i - 1].examplePath), false)
      ensures s == AnswerOf(layers[i].Datas(), layers[i].Confs(), g, rx, Out)
      ensures e == AnswerOf(layers[i + 1].Datas(), layers[i + 1].Confs(), g, rx, In)
      ensures e == ClearedAnswer(layers[i + 1].Confs(), g, rx, In)
      ensures i == 0 ==> s == ClearedAnswer(layers[0].Confs(), g, rx, Out)
      ensures 0 < i ==> s == OutAfterInTrim(layers[i].Confs(), g, rx, FoundEnds(layers[i - 1].examplePath))
    {
      s := AnswerOf(layers[i].Datas(), layers[i].Confs(), g, rx, Out);
      e := AnswerOf(layers[i + 1].Datas(), layers[i + 1].Confs(), g, rx, In);
      ClearedAnswerOf(layers[i + 1].Confs(), g, rx, In);
      if i == 0 {
        ClearedAnswerOf(layers[0].Confs(), g, rx, Out);
      }
    }

    /** The caches of every layer, in order. */
    ghost function LayerDatas(): seq<seq<Cache>>
      reads EntityObjs()
    {
      seq(|layers|, m requires 0 <= m < |layers| reads EntityObjs() => (ObjsInside(m); layers[m].Datas()))
    }

    /** The pattern sets of every layer, in order. */
    function LayerConfs(): seq<seq<Option<Config.Entity>>> {
      seq(|layers|, m requires 0 <= m < |layers| => layers[m].Confs())
    }

    /**
     * One step `i` (at least 1) of the backward sweep of `findAllBipartite`,
     * after the entities of layer `i` are swept: keep in the paths of layer
     * `i - 1` only the ends layer `i` still has as in nodes, and trim the
     * out nodes of layer `i - 1` to the starts left.
     */
    method FilterStep(i: int, g: Nodes)
      requires Shape() && 1 <= i < |layers|
      modifies layers[i - 1], layers[i - 1].Objs()
      ensures layers[i - 1].examplePath == FilterOpt(old(layers[i - 1].examplePath), layers[i].AllOnlyRead(In))
      ensures layers[i - 1].Datas() == ApplyEach(old(layers[i - 1].Datas()), layers[i - 1].Confs(), TrimOp(Out, KeysOf(layers[i - 1].examplePath)), g, rx)
      ensures layers[i].Datas() == old(layers[i].Datas())
    {
      assert layers[i - 1].Objs() !! layers[i].Objs();
      var inAll := layers[i].GetAllOnlyRead(In);
      var ep := layers[i - 1].examplePath;
      if ep.Some? {
        var filtered := FilterExamplePath(ep.value, inAll);
        layers[i - 1].examplePath := Some(filtered);
      }
      assert layers[i - 1].examplePath == FilterOpt(ep, inAll);
      var keys := if layers[i - 1].examplePath.Some? then layers[i - 1].examplePath.value.Keys else {};
      layers[i - 1].ApplyAll(TrimOp(Out, keys), g, rx);
      assert layers[i].Datas() == old(layers[i].Datas());
      assert layers[i].AllOnlyRead(In) == inAll;
    }

    /**
     * One step `i` (at least 1) of the backward sweep: sweep the entities of
     * layer `i`, then filter layer `i - 1` to the in nodes layer `i` now
     * holds. No other layer changes.
     */
    method SweepStep(i: int, g: Nodes)
      requires Shape() && 1 <= i < |layers| - 1
      modifies LayerSet(), EntityObjs()
      ensures layers[i].Datas() == ApplyEach(old(layers[i].Datas()), layers[i].Confs(), SweepOp, g, rx)
      ensures layers[i - 1].examplePath == FilterOpt(old(layers[i - 1].examplePath), layers[i].AllOnlyRead(In))
      ensures layers[i - 1].Datas() == ApplyEach(old(layers[i - 1].Datas()), layers[i - 1].Confs(), TrimOp(Out, KeysOf(layers[i - 1].examplePath)), g, rx)
      ensures forall m | 0 <= m < |layers| && m != i && m != i - 1 :: layers[m].Datas() == old(layers[m].Datas())
      ensures forall m | 0 <= m < |layers| && m != i - 1 :: layers[m].examplePath == old(layers[m].examplePath)
    {
      ObjsInside(i);
      layers[i].ApplyAll(SweepOp, g, rx);
      ObjsInside(i - 1);
      FilterStep(i, g);
      forall m | 0 <= m < |layers| && m != i && m != i - 1 ensures layers[m].Datas() == old(layers[m].Datas()) {
        assert layers[m].Objs() !! layers[i].Objs() && layers[m].Objs() !! layers[i - 1].Objs();
      }
    }

    /**
     * The backward sweep of `findAllBipartite`: from the last-but-one layer
     * down, sweep the layer's entities, then filter the previous layer. Each
     * layer below the last-but-one ends up with its paths filtered to the in
     * nodes the next layer holds at the end and its out caches trimmed to
     * the starts left, then swept; the last-but-one layer is swept only; the
     * last is as it was. So the paths only lose pairs, and each layer's
     * paths, but the last two layers', end in the in nodes the next layer
     * kept.
     */
    method BackwardSweep()
      requires Shape() && |layers| >= 2
      modifies LayerSet(), EntityObjs()
      ensures forall m | 0 <= m < |layers| - 2 ::
                layers[m].examplePath == FilterOpt(old(layers[m].examplePath), layers[m + 1].AllOnlyRead(In))
      ensures forall m | 0 <= m < |layers| - 2 ::
                layers[m].Datas() == ApplyEach(ApplyEach(old(layers[m].Datas()), layers[m].Confs(), TrimOp(Out, KeysOf(layers[m].examplePath)), callgraph.nodes, rx),
                                               layers[m].Confs(), SweepOp, callgraph.nodes, rx)
      ensures layers[|layers| - 2].examplePath == old(layers[|layers| - 2].examplePath)
      ensures layers[|layers| - 2].Datas() == ApplyEach(old(layers[|layers| - 2].Datas()), layers[|layers| - 2].Confs(), SweepOp, callgraph.nodes, rx)
      ensures layers[|layers| - 1].examplePath == old(layers[|layers| - 1].examplePath)
      ensures layers[|layers| - 1].Datas() == old(layers[|layers| - 1].Datas())
      ensures forall i | 0 <= i < |layers| :: SubPaths(layers[i].examplePath, old(layers[i].examplePath))
      ensures forall m | 1 <= m < |layers| - 1 :: EndsWithin(layers[m - 1].examplePath, layers[m].AllOnlyRead(In))
    {
      var g := callgraph.nodes;
      ghost var css, ds0, eps0 := LayerConfs(), LayerDatas(), LayerPaths();
      assert SweptAbove(css, g, rx, ds0, eps0, ds0, eps0, |layers| - 2);
      SweepDown(g, ds0, eps0);
      SweptFinal(g, ds0, eps0);
      assert ds0[|layers| - 2] == old(layers[|layers| - 2].Datas()) && ds0[|layers| - 1] == old(layers[|layers| - 1].Datas());
      assert forall m | 0 <= m < |layers| :: ds0[m] == old(layers[m].Datas()) && eps0[m] == old(layers[m].examplePath);
    }

    /** The steps of the backward sweep, from the last-but-one layer down to the sweep of layer 0. */
    method SweepDown(g: Nodes, ghost ds0: seq<seq<Cache>>, ghost eps0: seq<Option<Paths>>)
      requires Shape() && |layers| >= 2
      requires SweptAbove(LayerConfs(), g, rx, ds0, eps0, LayerDatas(), LayerPaths(), |layers| - 2)
      modifies LayerSet(), EntityObjs()
      ensures SweptAbove(LayerConfs(), g, rx, ds0, eps0, LayerDatas(), LayerPaths(), -1)
    {
      var i := |layers| - 2;
      while i > 0
        invariant 0 <= i <= |layers| - 2
        invariant SweptAbove(LayerConfs(), g, rx, ds0, eps0, LayerDatas(), LayerPaths(), i)
      {
        i := SweptStepAt(i, g, ds0, eps0);
      }
      SweepFirst(g, ds0, eps0);
    }

    /** The last step of the backward sweep: the entities of layer 0 are swept, and nothing else changes. */
    method SweepFirst(g: Nodes, ghost ds0: seq<seq<Cache>>, ghost eps0: seq<Option<Paths>>)
      requires Shape() && |layers| >= 2
      requires SweptAbove(LayerConfs(), g, rx, ds0, eps0, LayerDatas(), LayerPaths(), 0)
      modifies LayerSet(), EntityObjs()
      ensures SweptAbove(LayerConfs(), g, rx, ds0, eps0, LayerDatas(), LayerPaths(), -1)
    {
      ghost var ds, eps := LayerDatas(), LayerPaths();
      ObjsInside(0);
      layers[0].ApplyAll(SweepOp, g, rx);
      forall m | 0 < m < |layers| ensures layers[m].Datas() == ds[m] {
        assert layers[m].Objs() !! layers[0].Objs();
      }
      ghost var ds', eps' := LayerDatas(), LayerPaths();
      SweptStep(LayerConfs(), g, rx, ds0, eps0, ds, eps, ds', eps', 0);
    }

    /** Step `i` (at least 1) of the backward sweep, taking the sweep state from steps above `i` to `i` itself. */
    method SweptStepAt(i: int, g: Nodes, ghost ds0: seq<seq<Cache>>, ghost eps0: seq<Option<Paths>>) returns (next: int)
      requires Shape() && 1 <= i < |layers| - 1
      requires SweptAbove(LayerConfs(), g, rx, ds0, eps0, LayerDatas(), LayerPaths(), i)
      modifies LayerSet(), EntityObjs()
      ensures next == i - 1 && SweptAbove(LayerConfs(), g, rx, ds0, eps0, LayerDatas(), LayerPaths(), next)
    {
      next := i - 1;
      ghost var ds, eps := LayerDatas(), LayerPaths();
      SweepStep(i, g);
      ghost var ds', eps' := LayerDatas(), LayerPaths();
      SweptStep(LayerConfs(), g, rx, ds0, eps0, ds, eps, ds', eps', i);
    }

    /** What `SweptAbove` says of the finished sweep, in terms of the layers. */
    lemma SweptFinal(g: Nodes, ds0: seq<seq<Cache>>, eps0: seq<Option<Paths>>)
      requires |layers| >= 2 && SweptAbove(LayerConfs(), g, rx, ds0, eps0, LayerDatas(), LayerPaths(), -1)
      ensures forall m | 0 <= m < |layers| - 2 ::
                layers[m].examplePath == FilterOpt(eps0[m], layers[m + 1].AllOnlyRead(In))
      ensures forall m | 0 <= m < |layers| - 2 ::
                layers[m].Datas() == ApplyEach(ApplyEach(ds0[m], layers[m].Confs(), TrimOp(Out, KeysOf(layers[m].examplePath)), g, rx),
                                               layers[m].Confs(), SweepOp, g, rx)
      ensures layers[|layers| - 2].examplePath == eps0[|layers| - 2]
      ensures layers[|layers| - 2].Datas() == ApplyEach(ds0[|layers| - 2], layers[|layers| - 2].Confs(), SweepOp, g, rx)
      ensures layers[|layers| - 1].examplePath == eps0[|layers| - 1]
      ensures layers[|layers| - 1].Datas() == ds0[|layers| - 1]
      ensures forall i | 0 <= i < |layers| :: SubPaths(layers[i].examplePath, eps0[i])
      ensures forall m | 1 <= m < |layers| - 1 :: EndsWithin(layers[m - 1].examplePath, layers[m].AllOnlyRead(In))
    {
      var css, ds, eps := LayerConfs(), LayerDatas(), LayerPaths();
      var done := -1;
      SweptPaths(css, g, rx, ds0, eps0, ds, eps);
      forall m | 0 <= m < |layers|
        ensures layers[m].examplePath == eps[m] && layers[m].Datas() == ds[m] && layers[m].Confs() == css[m]
      {
      }
      forall m | 0 <= m < |layers| - 2
        ensures layers[m].examplePath == FilterOpt(eps0[m], layers[m + 1].AllOnlyRead(In))
        ensures layers[m].Datas() == ApplyEach(ApplyEach(ds0[m], layers[m].Confs(), TrimOp(Out, KeysOf(layers[m].examplePath)), g, rx),
                                               layers[m].Confs(), SweepOp, g, rx)
      {
        assert LayerSwept(css, g, rx, ds0, eps0, ds, eps, done, m);
        assert layers[m + 1].AllOnlyRead(In) == OnlyReadOf(ds[m + 1], css[m + 1], In);
      }
      assert LayerSwept(css, g, rx, ds0, eps0, ds, eps, done, |layers| - 2);
      assert LayerSwept(css, g, rx, ds0, eps0, ds, eps, done, |layers| - 1);
      forall m | 1 <= m < |layers| - 1 ensures layers[m].AllOnlyRead(In) == OnlyReadOf(ds[m], css[m], In) {
      }
    }

    /**
     * The issue branch of `findAllBipartite` before it resets the layers:
     * flag the new issues and splice every flagged function out. Fewer
     * unflagged functions of the snapshot are left.
     */
    method FlagIssues(issues: set<string>)
      requires Valid() && issues != {} && issues <= callgraph.nodes.Keys
      modifies this`allIssueFuncs, callgraph
      ensures Valid() && allIssueFuncs == old(allIssueFuncs) + issues
      ensures snapshot.Keys - allIssueFuncs < old(snapshot.Keys - allIssueFuncs)
      ensures Spliced(old(callgraph.nodes), callgraph.nodes, allIssueFuncs)
    {
      var a :| a in issues;
      assert a in snapshot.Keys - allIssueFuncs;
      allIssueFuncs := allIssueFuncs + issues;
      assert a !in snapshot.Keys - allIssueFuncs;
      assert snapshot.Keys - allIssueFuncs <= old(snapshot.Keys - allIssueFuncs);
      SkipNodesIR(allIssueFuncs);
    }

    /**
     * The no-issue branch of `findAllBipartite` on a graph not just restored,
     * up to its recursive call: restore the saved graph, splice every flagged
     * function out and reset the layers.
     */
    method RestoreAndSkip()
      requires Valid()
      modifies this`callgraph, LayerSet(), EntityObjs()
      ensures Valid() && fresh(callgraph) && LayersCleared()
      ensures callgraph.nodes.Keys <= snapshot.Keys - allIssueFuncs
      ensures Spliced(snapshot, callgraph.nodes, allIssueFuncs)
    {
      RestoreSnapshot();
      SkipNodesIR(allIssueFuncs);
      ResetLayers();
    }

    /** The end of `findAllBipartite` after a clean pass on a restored graph: the backward sweep keeps what the pass found. */
    method FinishSweep()
      requires Shape() && |layers| >= 2 && PassedForward() && Anchored()
      modifies LayerSet(), EntityObjs()
      ensures Generated()
    {
      ghost var before := seq(|layers|, i requires 0 <= i < |layers| reads LayerSet() => layers[i].examplePath);
      BackwardSweep();
      forall i | 0 <= i < |layers| - 1
        ensures layers[i].examplePath.Some? && NonEmptyPaths(layers[i].examplePath.value)
                && ChecksPass(callgraph.nodes, layers[i].examplePath.value)
      {
        SubPathsPass(callgraph.nodes, layers[i].examplePath.value, before[i].value);
      }
      forall i | 0 <= i < |layers| - 1
        ensures PathsBetween(callgraph.nodes, layers[i].examplePath.value, ClearedAnswer(layers[i + 1].Confs(), callgraph.nodes, rx, In))
      {
        SubPathsBetween(callgraph.nodes, layers[i].examplePath.value, before[i].value, ClearedAnswer(layers[i + 1].Confs(), callgraph.nodes, rx, In));
      }
    }

    /**
     * The forward pass as `findAllBipartite` uses it: the issues it reports
     * are functions of the graph, and a clean pass leaves every layer but
     * the last with paths that pass the chain check and are anchored.
     */
    method CheckedPass() returns (issues: set<string>)
      requires Valid() && |layers| >= 2 && LayersCleared()
      modifies LayerSet(), EntityObjs()
      ensures Valid()
      ensures issues <= callgraph.nodes.Keys
      ensures issues == {} ==> PassedForward() && Anchored()
    {
      ghost var starts, ends;
      issues, starts, ends := ForwardPass();
    }

    /**
     * `findAllBipartite`: run the forward pass; while it reports issues, add
     * them to the flagged functions, splice those out and start over; once a
     * pass is clean on a graph that was not just restored, restore the saved
     * graph, splice out every flagged function and start over once more;
     * when a pass on the restored graph is clean, run the backward sweep.
     */
    method FindAllBipartite(justReset: bool) returns (err: Option<string>)
      requires Valid() && LayersCleared()
      modifies this`callgraph, this`allIssueFuncs, callgraph, LayerSet(), EntityObjs()
      ensures Valid()
      ensures old(allIssueFuncs) <= allIssueFuncs
      ensures err.Some? <==> |layers| < 2
      ensures err.Some? ==> callgraph == old(callgraph) && allIssueFuncs == old(allIssueFuncs)
      ensures err.None? ==> Generated()
      decreases snapshot.Keys - allIssueFuncs, if justReset then 0 else 1, 2
    {
      if |layers| < 2 {
        return Some(TooFewLayers);
      }
      var issues := CheckedPass();
      AfterPass(issues, justReset);
      err := None;
    }

    /** The rest of `findAllBipartite` once the forward pass has reported `issues`. */
    method AfterPass(issues: set<string>, justReset: bool)
      requires Valid() && |layers| >= 2 && issues <= callgraph.nodes.Keys
      requires issues == {} ==> PassedForward() && Anchored()
      modifies this`callgraph, this`allIssueFuncs, callgraph, LayerSet(), EntityObjs()
      ensures Valid() && Generated()
      ensures old(allIssueFuncs) <= allIssueFuncs
      decreases snapshot.Keys - allIssueFuncs, if justReset then 0 else 1, 1
    {
      if issues != {} {
        RetryFlagged(issues);
      } else if !justReset {
        RetryRestored();
      } else {
        FinishSweep();
      }
    }

    /** The issue branch of `findAllBipartite`: flag and splice out the issues, reset the layers and start over. */
    method RetryFlagged(issues: set<string>)
      requires Valid() && |layers| >= 2 && issues != {} && issues <= callgraph.nodes.Keys
      modifies this`callgraph, this`allIssueFuncs, callgraph, LayerSet(), EntityObjs()
      ensures Valid() && Generated()
      ensures old(allIssueFuncs) <= allIssueFuncs
      decreases snapshot.Keys - allIssueFuncs, 0, 0
    {
      FlagIssues(issues);
      ResetLayers();
      var err := FindAllBipartite(false);
    }

    /** The branch of `findAllBipartite` after a clean pass on a graph not just restored: restore, splice and start over. */
    method RetryRestored()
      requires Valid() && |layers| >= 2
      modifies this`callgraph, this`allIssueFuncs, callgraph, LayerSet(), EntityObjs()
      ensures Valid() && Generated()
      ensures old(allIssueFuncs) <= allIssueFuncs
      decreases snapshot.Keys - allIssueFuncs, 1, 0
    {
      RestoreAndSkip();
      var err := FindAllBipartite(true);
    }

    /**
     * `Generate`: nothing to do once generated, and nothing changes; otherwise
     * clear the layer caches (what `PrintOriginalFlow` leaves behind after
     * filling them to log their sizes), find the paths and mark the flow
     * generated, or on failure reset it.
     */
    method Generate() returns (err: Option<string>)
      requires Valid()
      modifies this`callgraph, this`allIssueFuncs, this`isCompleteGenerate, callgraph, LayerSet(), EntityObjs()
      ensures Valid()
      ensures old(isCompleteGenerate) ==>
                err.None? && unchanged(this) && unchanged(callgraph) && unchanged(LayerSet()) && unchanged(EntityObjs())
      ensures !old(isCompleteGenerate) ==> (err.Some? <==> |layers| < 2)
      ensures !old(isCompleteGenerate) && err.Some? ==> !isCompleteGenerate && allIssueFuncs == {} && LayersCleared()
      ensures !old(isCompleteGenerate) && err.None? ==> isCompleteGenerate && Generated()
    {
      if isCompleteGenerate {
        return None;
      }
      err := PrintAndFind();
      if err.Some? {
        Reset();
        return;
      }
      assert Generated();
      isCompleteGenerate := true;
    }

    /**
     * The first two steps of `Generate` on a flow not yet generated:
     * `PrintOriginalFlow` (whose effect is to leave the layer caches nil),
     * then `findAllBipartite(false)`.
     */
    method PrintAndFind() returns (err: Option<string>)
      requires Valid()
      modifies this`callgraph, this`allIssueFuncs, callgraph, LayerSet(), EntityObjs()
      ensures Valid()
      ensures err.Some? <==> |layers| < 2
      ensures err.None? ==> Generated()
    {
      ResetLayers();
      err := FindAllBipartite(false);
    }

    /**
     * The sets one pair `i`, `i + 1` of `GetMinNodeSet` searches between:
     * the out nodes of layer `i` and the in nodes of layer `i + 1`. On
     * untrimmed caches they are what the layers' patterns select, and the
     * caches of the later layers stay untrimmed.
     */
    method MinPair(i: int, g: Nodes) returns (s: set<string>, e: set<string>)
      requires Shape() && 0 <= i < |layers| - 1
      requires UntrimmedFrom(g, i)
      modifies layers[i].Objs(), layers[i + 1].Objs()
      ensures UntrimmedFrom(g, i + 1)
      ensures s == ClearedAnswer(layers[i].Confs(), g, rx, Out) && e == ClearedAnswer(layers[i + 1].Confs(), g, rx, In)
    {
      ghost var d0, d1 := layers[i].Datas(), layers[i + 1].Datas();
      UntrimmedAnswer(d0, layers[i].Confs(), g, rx, Out);
      UntrimmedAnswer(d1, layers[i + 1].Confs(), g, rx, In);
      s, e := FillPair(i, g);
    }

    /**
     * `GetMinNodeSet`, on a flow whose caches are all nil: for every two
     * adjacent layers, the nodes the search from the first's out nodes to
     * the second's in nodes keeps, together; then every layer is reset. The
     * starts and ends searched are returned as ghosts: they are what the
     * layers' patterns select, the result is exactly `MinSet` of them, so it
     * holds the starts and, in a well-formed graph, every node on a path
     * between a start and an end.
     */
    method GetMinNodeSet() returns (r: Result<set<string>>, ghost starts: seq<set<string>>, ghost ends: seq<set<string>>)
      requires Shape() && LayersCleared()
      modifies LayerSet(), EntityObjs()
      ensures r.Err? <==> |layers| < 2
      ensures r.Err? ==> r.msg == TooFewLayers
      ensures r.Ok? ==> |starts| == |layers| - 1 && |ends| == |layers| - 1 && LayersCleared()
      ensures r.Ok? ==>
                forall i | 0 <= i < |layers| - 1 ::
                  && starts[i] == ClearedAnswer(layers[i].Confs(), callgraph.nodes, rx, Out)
                  && ends[i] == ClearedAnswer(layers[i + 1].Confs(), callgraph.nodes, rx, In)
      ensures r.Ok? ==> r.value == MinSet(callgraph.nodes, starts, ends)
      ensures r.Ok? ==> forall i | 0 <= i < |layers| - 1 :: starts[i] <= r.value
      ensures r.Ok? && GraphOK(callgraph.nodes) ==>
                forall i | 0 <= i < |layers| - 1 :: Covers(callgraph.nodes, starts[i], ends[i], r.value)
    {
      if |layers| < 2 {
        return Err(TooFewLayers), [], [];
      }
      ClearedUntrimmed(callgraph.nodes);
      var minSet;
      minSet, starts, ends := MinPairs(callgraph.nodes);
      ResetLayers();
      r := Ok(minSet);
    }

    /** One pair of the loop of `GetMinNodeSet`: add what the search from `s` to `e` keeps. */
    method ExtendMin(g: Nodes, ghost starts: seq<set<string>>, ghost ends: seq<set<string>>, minSet: set<string>,
                     s: set<string>, e: set<string>) returns (m: set<string>)
      requires MinSoFar(g, starts, ends, minSet)
      ensures MinSoFar(g, starts + [s], ends + [e], m)
    {
      var contain, _ := FindReachableNodes(g, s, e, {});
      MinSetStep(g, starts, ends, minSet, s, e, contain);
      m := minSet + contain;
    }

    /** The first `n` starts and ends are what the layers' patterns select in `g`. */
    ghost predicate Pinned(g: Nodes, starts: seq<set<string>>, ends: seq<set<string>>, n: int)
      requires 0 <= n <= |starts| && n <= |ends| && n < |layers|
    {
      forall m | 0 <= m < n ::
        && starts[m] == ClearedAnswer(layers[m].Confs(), g, rx, Out)
        && ends[m] == ClearedAnswer(layers[m + 1].Confs(), g, rx, In)
    }

    /** The caches of layers `i` onwards are untrimmed in `g`. */
    ghost predicate UntrimmedFrom(g: Nodes, i: int)
      reads EntityObjs()
    {
      forall m | 0 <= m < |layers| && i <= m :: AllUntrimmed(layers[m].Datas(), layers[m].Confs(), g, rx)
    }

    /** The loop of `GetMinNodeSet` over the adjacent pairs, on untrimmed caches. */
    method MinPairs(g: Nodes) returns (minSet: set<string>, ghost starts: seq<set<string>>, ghost ends: seq<set<string>>)
      requires Shape() && |layers| >= 2
      requires UntrimmedFrom(g, 0)
      modifies EntityObjs()
      ensures |starts| == |layers| - 1 && |ends| == |layers| - 1
      ensures Pinned(g, starts, ends, |layers| - 1)
      ensures MinSoFar(g, starts, ends, minSet)
    {
      minSet := {};
      starts, ends := [], [];
      var i := 0;
      while i < |layers| - 1
        invariant 0 <= i <= |layers| - 1
        invariant |starts| == i && |ends| == i
        invariant MinSoFar(g, starts, ends, minSet)
        invariant Pinned(g, starts, ends, i)
        invariant UntrimmedFrom(g, i)
      {
        i, minSet, starts, ends := MinStep(i, g, minSet, starts, ends);
      }
    }

    /** One turn of the loop of `MinPairs`: the pair `i` searched and its starts and ends recorded. */
    method MinStep(i: int, g: Nodes, minSet: set<string>, ghost starts: seq<set<string>>, ghost ends: seq<set<string>>)
      returns (next: int, minSet': set<string>, ghost starts': seq<set<string>>, ghost ends': seq<set<string>>)
      requires Shape() && 0 <= i < |layers| - 1 && |starts| == i && |ends| == i
      requires MinSoFar(g, starts, ends, minSet) && Pinned(g, starts, ends, i) && UntrimmedFrom(g, i)
      modifies EntityObjs()
      ensures next == i + 1 && |starts'| == next && |ends'| == next
      ensures MinSoFar(g, starts', ends', minSet') && Pinned(g, starts', ends', next) && UntrimmedFrom(g, next)
    {
      next := i + 1;
      ObjsInside(i);
      ObjsInside(i + 1);
      var s, e := MinPair(i, g);
      PinnedStep(g, starts, ends, i, s, e);
      minSet' := ExtendMin(g, starts, ends, minSet, s, e);
      starts', ends' := starts + [s], ends + [e];
    }

    /** Pinning one more pair of starts and ends. */
    lemma PinnedStep(g: Nodes, starts: seq<set<string>>, ends: seq<set<string>>, i: int, s: set<string>, e: set<string>)
      requires 0 <= i < |layers| - 1 && |starts| == i && |ends| == i && Pinned(g, starts, ends, i)
      requires s == ClearedAnswer(layers[i].Confs(), g, rx, Out) && e == ClearedAnswer(layers[i + 1].Confs(), g, rx, In)
      ensures Pinned(g, starts + [s], ends + [e], i + 1)
    {
      forall m | 0 <= m < i + 1
        ensures (starts + [s])[m] == ClearedAnswer(layers[m].Confs(), g, rx, Out)
        ensures (ends + [e])[m] == ClearedAnswer(layers[m + 1].Confs(), g, rx, In)
      {
        if m < i {
          assert (starts + [s])[m] == starts[m] && (ends + [e])[m] == ends[m];
        }
      }
    }

    /**
     * The steps of `NewFlow` between building the flow and saving its graph:
     * `CheckFlowEntities` (whose net effect is cleared caches), then
     * `UpdateMinGraph`.
     */
    method Minimize() returns (err: Option<string>)
      requires Shape() && GraphOK(callgraph.nodes)
      modifies this`callgraph, LayerSet(), EntityObjs()
      ensures err.Some? <==> |layers| < 2
      ensures err.Some? ==> err.value == TooFewLayers
      ensures err.None? ==> fresh(callgraph) && GraphOK(callgraph.nodes) && callgraph.nodes.Keys <= old(callgraph.nodes).Keys
      ensures err.None? ==> LayersCleared()
    {
      ResetLayers();
      ghost var starts, ends;
      err, starts, ends := UpdateMinGraph();
    }

    /**
     * `UpdateMinGraph`: replace the graph by its copy filtered to the names of
     * the minimal node set. Every node on a path between two adjacent layers'
     * starts and ends survives, and the copy is well formed.
     */
    method UpdateMinGraph() returns (err: Option<string>, ghost starts: seq<set<string>>, ghost ends: seq<set<string>>)
      requires Shape() && GraphOK(callgraph.nodes) && LayersCleared()
      modifies this`callgraph, LayerSet(), EntityObjs()
      ensures err.Some? <==> |layers| < 2
      ensures err.Some? ==> err.value == TooFewLayers && callgraph == old(callgraph)
      ensures err.None? ==> fresh(callgraph) && GraphOK(callgraph.nodes) && callgraph.nodes.Keys <= old(callgraph.nodes).Keys
      ensures err.None? ==> |starts| == |layers| - 1 && |ends| == |layers| - 1 && LayersCleared()
      ensures err.None? ==>
                forall i | 0 <= i < |layers| - 1 ::
                  && starts[i] == ClearedAnswer(layers[i].Confs(), old(callgraph.nodes), rx, Out)
                  && ends[i] == ClearedAnswer(layers[i + 1].Confs(), old(callgraph.nodes), rx, In)
      ensures err.None? ==>
                forall k :: k in callgraph.nodes <==>
                  && k in old(callgraph.nodes) && k != ""
                  && old(callgraph.nodes)[k].func.name in NamesOf(old(callgraph.nodes), MinSet(old(callgraph.nodes), starts, ends))
      ensures err.None? ==>
                forall i | 0 <= i < |layers| - 1 ::
                  && starts[i] * old(callgraph.nodes).Keys <= callgraph.nodes.Keys
                  && Covers(old(callgraph.nodes), starts[i], ends[i], callgraph.nodes.Keys)
    {
      var r;
      r, starts, ends := GetMinNodeSet();
      if r.Err? {
        return Some(r.msg), starts, ends;
      }
      ghost var g := callgraph.nodes;
      var names := CollectNames(callgraph.nodes, r.value);
      callgraph := Graph.GetFilteredCallgraph(callgraph, InNames(names));
      MinGraphKeeps(g, r.value);
      forall i | 0 <= i < |layers| - 1 ensures Covers(g, starts[i], ends[i], callgraph.nodes.Keys) {
        CoversFiltered(g, starts[i], ends[i], r.value);
      }
      err := None;
    }
  }

  /** A fresh entity per configured entity, every cache nil. */
  method NewEntities(confs: seq<Option<Config.Entity>>) returns (es: seq<Entity>)
    ensures |es| == |confs|
    ensures forall j | 0 <= j < |es| :: fresh(es[j]) && es[j].conf == confs[j] && es[j].Data() == Cleared
    ensures forall i, j | 0 <= i < j < |es| :: es[i] != es[j]
  {
    es := [];
    var j := 0;
    while j < |confs|
      invariant 0 <= j <= |confs| && |es| == j
      invariant forall m | 0 <= m < j :: fresh(es[m]) && es[m].conf == confs[m] && es[m].Data() == Cleared
      invariant forall a, b | 0 <= a < b < j :: es[a] != es[b]
    {
      var e := new Entity(confs[j]);
      es := es + [e];
      j := j + 1;
    }
  }

  /** A fresh layer per configured layer, its entities fresh and shared with no other layer. */
  method NewLayers(confs: seq<Config.Layer>) returns (ls: seq<Layer>)
    ensures Built(ls, confs) && Disjoint(ls)
    ensures forall i | 0 <= i < |ls| :: fresh(ls[i]) && fresh(ls[i].Objs())
    ensures forall i, j | 0 <= i < |ls| && 0 <= j < |ls[i].entities| :: fresh(ls[i].entities[j])
    ensures forall i | 0 <= i < |ls| ::
              && ls[i].nodeSet.None? && ls[i].examplePath.None?
              && forall j | 0 <= j < |ls[i].entities| :: ls[i].entities[j].Data() == Cleared
  {
    ls := [];
    var i := 0;
    while i < |confs|
      invariant 0 <= i <= |confs| && Built(ls, confs[..i]) && Disjoint(ls)
      invariant forall m | 0 <= m < i :: fresh(ls[m]) && fresh(ls[m].Objs())
      invariant forall m, j | 0 <= m < i && 0 <= j < |ls[m].entities| :: fresh(ls[m].entities[j])
      invariant forall m | 0 <= m < i ::
                  && ls[m].nodeSet.None? && ls[m].examplePath.None?
                  && forall j | 0 <= j < |ls[m].entities| :: ls[m].entities[j].Data() == Cleared
    {
      var es := NewEntities(confs[i].entities);
      var l := new Layer(confs[i].name, es);
      ls := ls + [l];
      i := i + 1;
    }
    assert confs[..|confs|] == confs;
  }

  /** A flow ready to generate: what it promises once the configuration and the graph are there. */
  ghost predicate FreshFlow(f: Flow, conf: Config.Configuration, g: Nodes)
    reads f, f.callgraph, f.LayerSet(), f.EntityObjs()
  {
    && f.Valid()
    && f.pkgPrefix == conf.packagePrefix
    && Built(f.layers, conf.layers)
    && f.callgraph.nodes.Keys <= g.Keys
    && f.snapshot == f.callgraph.nodes
    && f.allIssueFuncs == {} && !f.isCompleteGenerate
    && f.LayersCleared()
  }

  /**
   * The body of `NewFlow` once the configuration has layers and the graph is
   * there: build the layers, check the entities, move to the minimal graph
   * and save it.
   */
  method BuildFlow(conf: Config.Configuration, cg: Graph.Callgraph, rx: Regex) returns (r: Result<Flow>)
    requires conf.layers != [] && GraphOK(cg.nodes)
    ensures r.Err? <==> |conf.layers| < 2
    ensures r.Err? ==> r.msg == TooFewLayers
    ensures r.Ok? ==> fresh(r.value) && fresh(r.value.callgraph) && FreshFlow(r.value, conf, cg.nodes)
  {
    var ls := NewLayers(conf.layers);
    var f := new Flow(conf.packagePrefix, cg, ls, rx);
    var err := f.Minimize();
    if err.Some? {
      return Err(err.value);
    }
    f.SaveSnapshot();
    r := Ok(f);
  }

  /**
   * `NewFlow`: the flow of a configuration over a call graph, on the minimal
   * graph and with the saved copy of it, or the error of a nil configuration,
   * a configuration without layers, a nil graph, or a single layer.
   */
  method NewFlow(config: Option<Config.Configuration>, callGraph: Option<Graph.Callgraph>, rx: Regex) returns (r: Result<Flow>)
    requires callGraph.Some? ==> GraphOK(callGraph.value.nodes)
    ensures config.None? ==> r == Err("config is nil")
    ensures config.Some? && config.value.layers == [] ==> r == Err("no layers in config")
    ensures config.Some? && config.value.layers != [] && callGraph.None? ==> r == Err("callgraph is nil")
    ensures config.Some? && |config.value.layers| == 1 && callGraph.Some? ==> r == Err(TooFewLayers)
    ensures r.Ok? <==> config.Some? && |config.value.layers| >= 2 && callGraph.Some?
    ensures r.Ok? ==> fresh(r.value) && fresh(r.value.callgraph) && FreshFlow(r.value, config.value, callGraph.value.nodes)
  {
    if config.None? {
      return Err("config is nil");
    }
    if config.value.layers == [] {
      return Err("no layers in config");
    }
    if callGraph.None? {
      return Err("callgraph is nil");
    }
    r := BuildFlow(config.value, callGraph.value, rx);
  }
}

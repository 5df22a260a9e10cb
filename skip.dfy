/**
 * The splice step of `skipNodeIR`: a flagged node is deleted, and each pair
 * of one of its incoming edges and one of its outgoing edges may be replaced
 * by a direct edge from the caller to the callee, whose call site records the
 * skipped function.
 */
module Skips {
  import opened Wrappers
  import opened IR

  /** The call site of a merged edge: the two sites joined through `->Skip(<skipped>)->`, for the name and for the Addr. */
  function MergedSite(inE: Edge, skipped: Func, outE: Edge): Site {
    Site(inE.site.name + "->Skip(" + skipped.name + ")->" + outE.site.name,
         inE.site.addr + "->Skip(" + skipped.addr + ")->" + outE.site.addr)
  }

  /**
   * `doMerge`: both endpoints exist (in the graph as it was before the
   * deletion), and the callee or the caller is itself flagged, or the callee's
   * parent has the caller's name.
   */
  predicate DoMerge(g0: Nodes, issue: set<string>, inE: Edge, outE: Edge) {
    && inE.caller in g0 && outE.callee in g0
    && (|| g0[outE.callee].func.addr in issue
        || g0[inE.caller].func.addr in issue
        || (g0[outE.callee].func.parent.Some? && g0[outE.callee].func.parent.value.name == g0[inE.caller].func.name))
  }

  /** The edge the merge of one pair asks `AddEdge` for. */
  function MergedEdge(g0: Nodes, skipped: Func, inE: Edge, outE: Edge): Edge
    requires inE.caller in g0 && outE.callee in g0
  {
    Edge(g0[inE.caller].func.addr, MergedSite(inE, skipped, outE), g0[outE.callee].func.addr)
  }

  /** One incoming edge paired with every outgoing edge, in order. */
  function Row(x: Edge, outs: seq<Edge>): seq<(Edge, Edge)> {
    seq(|outs|, j requires 0 <= j < |outs| => (x, outs[j]))
  }

  /** The pairs in the order of the two nested loops: incoming edges outside, outgoing edges inside. */
  function Pairs(ins: seq<Edge>, outs: seq<Edge>): seq<(Edge, Edge)>
    decreases |ins|
  {
    if ins == [] then [] else Pairs(ins[..|ins| - 1], outs) + Row(ins[|ins| - 1], outs)
  }

  /** Every pair of an incoming and an outgoing edge is visited, and nothing else. */
  lemma {:induction false} PairsSpec(ins: seq<Edge>, outs: seq<Edge>)
    ensures forall p :: p in Pairs(ins, outs) <==> p.0 in ins && p.1 in outs
    decreases |ins|
  {
    if ins != [] {
      var n := |ins| - 1;
      PairsSpec(ins[..n], outs);
      forall p ensures p in Pairs(ins, outs) <==> p.0 in ins && p.1 in outs {
        if p.0 in ins && p.1 in outs {
          var a :| 0 <= a < |ins| && ins[a] == p.0;
          var b :| 0 <= b < |outs| && outs[b] == p.1;
          if a < n {
            assert ins[..n][a] == p.0;
          } else {
            assert Row(ins[n], outs)[b] == p;
          }
        }
        if p in Row(ins[n], outs) {
          var b :| 0 <= b < |outs| && Row(ins[n], outs)[b] == p;
        }
        if p.0 in ins[..n] {
          var a :| 0 <= a < n && ins[..n][a] == p.0;
          assert ins[a] == p.0;
        }
      }
    }
  }

  /** One pass of the inner loop's body on the pair `p`. */
  function SpliceStep(h: Nodes, g0: Nodes, issue: set<string>, skipped: Func, p: (Edge, Edge)): (r: Nodes)
    ensures r.Keys == h.Keys
  {
    if DoMerge(g0, issue, p.0, p.1) then
      AddEdgeNodes(h, g0[p.0.caller].func.addr, g0[p.1.callee].func.addr, MergedSite(p.0, skipped, p.1))
    else h
  }

  /** The merge loop over the pairs `ps`, starting from the graph `g`: each pair that merges asks for its edge. */
  function SpliceAll(g: Nodes, g0: Nodes, issue: set<string>, skipped: Func, ps: seq<(Edge, Edge)>): (r: Nodes)
    ensures r.Keys == g.Keys
    decreases |ps|
  {
    if ps == [] then g
    else SpliceStep(SpliceAll(g, g0, issue, skipped, ps[..|ps| - 1]), g0, issue, skipped, ps[|ps| - 1])
  }

  /** Some pair of `ps` merges (`hasDoSkip`). */
  predicate AnyMerge(g0: Nodes, issue: set<string>, ps: seq<(Edge, Edge)>) {
    exists m | 0 <= m < |ps| :: DoMerge(g0, issue, ps[m].0, ps[m].1)
  }

  /** `skipNodeIR`'s step on the node `k`: delete it, then run the merge loop over its pairs. */
  function SpliceNode(g0: Nodes, k: string, issue: set<string>): Nodes
    requires k in g0
  {
    SpliceAll(DeleteNodeNodes(g0, k), g0, issue, g0[k].func, Pairs(g0[k].ins, g0[k].outs))
  }

  /** Running the loop over two runs of pairs is running it over the first, then over the second. */
  lemma {:induction false} SpliceAllAppend(g: Nodes, g0: Nodes, issue: set<string>, skipped: Func,
                                           ps: seq<(Edge, Edge)>, qs: seq<(Edge, Edge)>)
    ensures SpliceAll(g, g0, issue, skipped, ps + qs) == SpliceAll(SpliceAll(g, g0, issue, skipped, ps), g0, issue, skipped, qs)
    decreases |qs|
  {
    if qs == [] {
      assert ps + qs == ps;
    } else {
      var n := |qs| - 1;
      var all := ps + qs;
      assert all[..|all| - 1] == ps + qs[..n];
      assert all[|all| - 1] == qs[n];
      SpliceAllAppend(g, g0, issue, skipped, ps, qs[..n]);
    }
  }

  /** Some pair of two runs merges iff some pair of one of them does. */
  lemma AnyMergeAppend(g0: Nodes, issue: set<string>, ps: seq<(Edge, Edge)>, qs: seq<(Edge, Edge)>)
    ensures AnyMerge(g0, issue, ps + qs) <==> AnyMerge(g0, issue, ps) || AnyMerge(g0, issue, qs)
  {
    if AnyMerge(g0, issue, ps + qs) {
      var m :| 0 <= m < |ps + qs| && DoMerge(g0, issue, (ps + qs)[m].0, (ps + qs)[m].1);
      if m >= |ps| {
        assert (ps + qs)[m] == qs[m - |ps|];
      }
    }
    if AnyMerge(g0, issue, qs) {
      var m :| 0 <= m < |qs| && DoMerge(g0, issue, qs[m].0, qs[m].1);
      assert (ps + qs)[|ps| + m] == qs[m];
    }
    if AnyMerge(g0, issue, ps) {
      var m :| 0 <= m < |ps| && DoMerge(g0, issue, ps[m].0, ps[m].1);
      assert (ps + qs)[m] == ps[m];
    }
  }

  /** One more incoming edge: the loop over its row of pairs runs after the loop over the earlier rows. */
  lemma PairsStep(g: Nodes, g0: Nodes, issue: set<string>, skipped: Func, ins: seq<Edge>, outs: seq<Edge>, i: int)
    requires 0 <= i < |ins|
    ensures SpliceAll(g, g0, issue, skipped, Pairs(ins[..i + 1], outs))
            == SpliceAll(SpliceAll(g, g0, issue, skipped, Pairs(ins[..i], outs)), g0, issue, skipped, Row(ins[i], outs))
    ensures AnyMerge(g0, issue, Pairs(ins[..i + 1], outs)) <==> AnyMerge(g0, issue, Pairs(ins[..i], outs)) || AnyMerge(g0, issue, Row(ins[i], outs))
  {
    assert ins[..i + 1][..i] == ins[..i];
    assert Pairs(ins[..i + 1], outs) == Pairs(ins[..i], outs) + Row(ins[i], outs);
    SpliceAllAppend(g, g0, issue, skipped, Pairs(ins[..i], outs), Row(ins[i], outs));
    AnyMergeAppend(g0, issue, Pairs(ins[..i], outs), Row(ins[i], outs));
  }

  /** Adding an edge to one list of a node keeps every listed edge and lists nothing new but that edge. */
  lemma AddLists(n: Node, d: Dir, e: Edge, d2: Dir)
    ensures forall x | x in n.List(d2) :: x in n.Add(d, e).List(d2)
    ensures forall x | x in n.Add(d, e).List(d2) :: x in n.List(d2) || x == e
  {
    if d2 != d {
      assert d2 == d.Flip();
    }
  }

  /** `AddEdge` keeps every listed edge, and lists nothing new but the edge it adds. */
  lemma AddEdgeLists(g: Nodes, a: string, b: string, site: Site, d: Dir)
    ensures forall j, x | j in g && x in g[j].List(d) :: x in AddEdgeNodes(g, a, b, site)[j].List(d)
    ensures forall j, x | j in g && x in AddEdgeNodes(g, a, b, site)[j].List(d) ::
              x in g[j].List(d) || (a in g && b in g && x == Edge(g[a].func.addr, site, g[b].func.addr))
  {
    if a in g && b in g {
      var e := Edge(g[a].func.addr, site, g[b].func.addr);
      var g1 := g[b := g[b].AddIn(e)];
      var r := g1[a := g1[a].AddOut(e)];
      assert r == AddEdgeNodes(g, a, b, site);
      AddLists(g[b], In, e, d);
      AddLists(g1[a], Out, e, d);
      forall j | j in g
        ensures forall x | x in g[j].List(d) :: x in r[j].List(d)
        ensures forall x | x in r[j].List(d) :: x in g[j].List(d) || x == e
      {
        if j != b {
          assert g1[j] == g[j];
        }
        if j != a {
          assert r[j] == g1[j];
        }
      }
    }
  }

  /** The merge loop keeps the graph well formed. */
  lemma {:induction false} SpliceAllOK(g: Nodes, g0: Nodes, issue: set<string>, skipped: Func, ps: seq<(Edge, Edge)>)
    requires GraphOK(g)
    ensures GraphOK(SpliceAll(g, g0, issue, skipped, ps))
    decreases |ps|
  {
    if ps != [] {
      var n := |ps| - 1;
      SpliceAllOK(g, g0, issue, skipped, ps[..n]);
      var h := SpliceAll(g, g0, issue, skipped, ps[..n]);
      var p := ps[n];
      if DoMerge(g0, issue, p.0, p.1) {
        var a, b, site := g0[p.0.caller].func.addr, g0[p.1.callee].func.addr, MergedSite(p.0, skipped, p.1);
        AddEdgeSpec(h, a, b, site, SpliceStep(h, g0, issue, skipped, p));
      }
    }
  }

  /** The merge loop keeps every edge already listed. */
  lemma {:induction false} SpliceAllKeeps(g: Nodes, g0: Nodes, issue: set<string>, skipped: Func, ps: seq<(Edge, Edge)>, d: Dir)
    ensures forall j, x | j in g && x in g[j].List(d) :: x in SpliceAll(g, g0, issue, skipped, ps)[j].List(d)
    decreases |ps|
  {
    if ps != [] {
      var n := |ps| - 1;
      SpliceAllKeeps(g, g0, issue, skipped, ps[..n], d);
      var h := SpliceAll(g, g0, issue, skipped, ps[..n]);
      var p := ps[n];
      if DoMerge(g0, issue, p.0, p.1) {
        AddEdgeLists(h, g0[p.0.caller].func.addr, g0[p.1.callee].func.addr, MergedSite(p.0, skipped, p.1), d);
      }
    }
  }

  /** Listing an edge of the same identity is kept through the merge loop. */
  lemma KeyKept(g: Nodes, g0: Nodes, issue: set<string>, skipped: Func, ps: seq<(Edge, Edge)>, j: string, d: Dir, key: EdgeKey)
    requires j in g && key in g[j].IndexKeys(d)
    ensures key in SpliceAll(g, g0, issue, skipped, ps)[j].IndexKeys(d)
  {
    SpliceAllKeeps(g, g0, issue, skipped, ps, d);
    var x :| x in g[j].List(d) && Key(x) == key;
    assert x in SpliceAll(g, g0, issue, skipped, ps)[j].List(d);
  }

  /** The merge loop over `ps` runs its first `k` pairs and then the rest. */
  lemma SpliceAllSplit(g: Nodes, g0: Nodes, issue: set<string>, skipped: Func, ps: seq<(Edge, Edge)>, k: int)
    requires 0 <= k <= |ps|
    ensures SpliceAll(g, g0, issue, skipped, ps) == SpliceAll(SpliceAll(g, g0, issue, skipped, ps[..k]), g0, issue, skipped, ps[k..])
  {
    assert ps == ps[..k] + ps[k..];
    SpliceAllAppend(g, g0, issue, skipped, ps[..k], ps[k..]);
  }

  /** The merge loop over the first `m + 1` pairs is the one over the first `m` followed by pair `m`. */
  lemma SpliceAllLast(g: Nodes, g0: Nodes, issue: set<string>, skipped: Func, ps: seq<(Edge, Edge)>, m: int)
    requires 0 <= m < |ps|
    ensures SpliceAll(g, g0, issue, skipped, ps[..m + 1]) == SpliceStep(SpliceAll(g, g0, issue, skipped, ps[..m]), g0, issue, skipped, ps[m])
  {
    var pre := ps[..m + 1];
    assert pre[..m] == ps[..m] && pre[m] == ps[m];
  }

  /** A pair that merges lists its merged edge at both ends of the graph it is merged into. */
  lemma MergedStep(h: Nodes, g0: Nodes, issue: set<string>, skipped: Func, p: (Edge, Edge))
    requires GraphOK(h) && DoMerge(g0, issue, p.0, p.1)
    requires g0[p.0.caller].func.addr in h && g0[p.1.callee].func.addr in h
    ensures var e, r := MergedEdge(g0, skipped, p.0, p.1), SpliceStep(h, g0, issue, skipped, p);
            && e.callee in r && Key(e) in r[e.callee].IndexKeys(In)
            && e.caller in r && Key(e) in r[e.caller].IndexKeys(Out)
  {
    var e := MergedEdge(g0, skipped, p.0, p.1);
    assert h[e.caller].func.addr == e.caller && h[e.callee].func.addr == e.callee;
    AddEdgeIndexes(h, e.caller, e.callee, e.site);
  }

  /** The merge loop up to and including a pair that merges lists that pair's merged edge at both ends. */
  lemma MergedAt(g: Nodes, g0: Nodes, issue: set<string>, skipped: Func, ps: seq<(Edge, Edge)>, m: int)
    requires GraphOK(g) && 0 <= m < |ps| && DoMerge(g0, issue, ps[m].0, ps[m].1)
    requires g0[ps[m].0.caller].func.addr in g && g0[ps[m].1.callee].func.addr in g
    ensures var e, h1 := MergedEdge(g0, skipped, ps[m].0, ps[m].1), SpliceAll(g, g0, issue, skipped, ps[..m + 1]);
            && e.callee in h1 && Key(e) in h1[e.callee].IndexKeys(In)
            && e.caller in h1 && Key(e) in h1[e.caller].IndexKeys(Out)
  {
    SpliceAllLast(g, g0, issue, skipped, ps, m);
    SpliceAllOK(g, g0, issue, skipped, ps[..m]);
    MergedStep(SpliceAll(g, g0, issue, skipped, ps[..m]), g0, issue, skipped, ps[m]);
  }

  /**
   * A pair that merges, with both endpoints still in the graph, leaves its
   * merged edge's identity listed at both ends.
   */
  lemma MergedPresent(g: Nodes, g0: Nodes, issue: set<string>, skipped: Func, ps: seq<(Edge, Edge)>, m: int)
    requires GraphOK(g) && 0 <= m < |ps| && DoMerge(g0, issue, ps[m].0, ps[m].1)
    requires g0[ps[m].0.caller].func.addr in g && g0[ps[m].1.callee].func.addr in g
    ensures var e := MergedEdge(g0, skipped, ps[m].0, ps[m].1);
            && Key(e) in SpliceAll(g, g0, issue, skipped, ps)[e.callee].IndexKeys(In)
            && Key(e) in SpliceAll(g, g0, issue, skipped, ps)[e.caller].IndexKeys(Out)
  {
    var e := MergedEdge(g0, skipped, ps[m].0, ps[m].1);
    SpliceAllSplit(g, g0, issue, skipped, ps, m + 1);
    MergedAt(g, g0, issue, skipped, ps, m);
    var h1 := SpliceAll(g, g0, issue, skipped, ps[..m + 1]);
    KeyKept(h1, g0, issue, skipped, ps[m + 1..], e.callee, In, Key(e));
    KeyKept(h1, g0, issue, skipped, ps[m + 1..], e.caller, Out, Key(e));
  }

  /** The pair `m` of `ps` merges into the edge `x`. */
  predicate MergesInto(g0: Nodes, issue: set<string>, skipped: Func, ps: seq<(Edge, Edge)>, m: int, x: Edge) {
    0 <= m < |ps| && DoMerge(g0, issue, ps[m].0, ps[m].1) && x == MergedEdge(g0, skipped, ps[m].0, ps[m].1)
  }

  /** Every edge the merge loop lists was listed before, or is the merged edge of a pair that merges. */
  lemma {:induction false} SpliceAllOnly(g: Nodes, g0: Nodes, issue: set<string>, skipped: Func, ps: seq<(Edge, Edge)>, d: Dir)
    requires GraphOK(g) && GraphOK(g0)
    ensures forall j, x | j in g && x in SpliceAll(g, g0, issue, skipped, ps)[j].List(d) ::
              x in g[j].List(d) || exists m :: MergesInto(g0, issue, skipped, ps, m, x)
    decreases |ps|
  {
    if ps != [] {
      var n := |ps| - 1;
      var pre := ps[..n];
      SpliceAllOnly(g, g0, issue, skipped, pre, d);
      SpliceAllOK(g, g0, issue, skipped, pre);
      var h := SpliceAll(g, g0, issue, skipped, pre);
      var p := ps[n];
      var r := SpliceStep(h, g0, issue, skipped, p);
      assert r == SpliceAll(g, g0, issue, skipped, ps);
      if DoMerge(g0, issue, p.0, p.1) {
        AddEdgeLists(h, g0[p.0.caller].func.addr, g0[p.1.callee].func.addr, MergedSite(p.0, skipped, p.1), d);
      }
      forall j, x | j in g && x in r[j].List(d)
        ensures x in g[j].List(d) || exists m :: MergesInto(g0, issue, skipped, ps, m, x)
      {
        if x in h[j].List(d) {
          if x !in g[j].List(d) {
            var m :| MergesInto(g0, issue, skipped, pre, m, x);
            assert pre[m] == ps[m];
            assert MergesInto(g0, issue, skipped, ps, n, x) || MergesInto(g0, issue, skipped, ps, m, x);
          }
        } else {
          assert MergesInto(g0, issue, skipped, ps, n, x);
        }
      }
    }
  }

  /** Deleting a node keeps a well-formed graph well formed. */
  lemma DeleteKeepsOK(g0: Nodes, k: string)
    requires GraphOK(g0) && k in g0
    ensures GraphOK(DeleteNodeNodes(g0, k))
  {
    DeleteNodeSpec(g0, k, DeleteNodeNodes(g0, k));
  }

  /** The splice of the node `k` keeps a well-formed graph well formed, loses `k` and adds no node. */
  lemma SpliceNodeOK(g0: Nodes, k: string, issue: set<string>)
    requires GraphOK(g0) && k in g0
    ensures GraphOK(SpliceNode(g0, k, issue)) && k !in SpliceNode(g0, k, issue)
    ensures SpliceNode(g0, k, issue).Keys <= g0.Keys
  {
    var g1 := DeleteNodeNodes(g0, k);
    DeleteNodeSpec(g0, k, g1);
    SpliceAllOK(g1, g0, issue, g0[k].func, Pairs(g0[k].ins, g0[k].outs));
  }

  /** A set inside another is no larger. */
  lemma {:induction false} SubsetCard(a: set<string>, b: set<string>)
    requires a <= b
    ensures |a| <= |b|
    decreases |a|
  {
    if a != {} {
      var x :| x in a;
      SubsetCard(a - {x}, b - {x});
    }
  }

  /**
   * `g1` is what splicing out flagged nodes of `g0` one at a time can leave:
   * `g0` itself, or the splice of some flagged node followed by more splices.
   */
  ghost predicate Spliced(g0: Nodes, g1: Nodes, issue: set<string>)
    decreases |g0|
  {
    || g1 == g0
    || exists k | k in g0 && k in issue && |SpliceNode(g0, k, issue)| < |g0| :: Spliced(SpliceNode(g0, k, issue), g1, issue)
  }

  /** Splicing out one flagged node of a well-formed graph, then more, is a run of splices. */
  lemma SplicedStep(g0: Nodes, k: string, issue: set<string>, g1: Nodes)
    requires GraphOK(g0) && k in g0 && k in issue
    requires Spliced(SpliceNode(g0, k, issue), g1, issue)
    ensures Spliced(g0, g1, issue)
  {
    SpliceNodeOK(g0, k, issue);
    SubsetCard(SpliceNode(g0, k, issue).Keys, g0.Keys - {k});
  }

  /** Two runs of splices in a row are one run. */
  lemma {:induction false} SplicedTrans(a: Nodes, b: Nodes, c: Nodes, issue: set<string>)
    requires Spliced(a, b, issue) && Spliced(b, c, issue)
    ensures Spliced(a, c, issue)
    decreases |a|
  {
    if b != a {
      var k :| k in a && k in issue && |SpliceNode(a, k, issue)| < |a| && Spliced(SpliceNode(a, k, issue), b, issue);
      SplicedTrans(SpliceNode(a, k, issue), b, c, issue);
    }
  }

  /**
   * Every pair of an incoming and an outgoing edge of `k` that merges, and
   * whose caller and callee survive the deletion, has its merged edge listed
   * at both ends after the splice.
   */
  lemma SpliceNodeAdds(g0: Nodes, k: string, issue: set<string>, x: Edge, y: Edge)
    requires GraphOK(g0) && k in g0
    requires x in g0[k].ins && y in g0[k].outs && DoMerge(g0, issue, x, y)
    requires x.caller in SpliceNode(g0, k, issue) && y.callee in SpliceNode(g0, k, issue)
    ensures Key(MergedEdge(g0, g0[k].func, x, y)) in SpliceNode(g0, k, issue)[y.callee].IndexKeys(In)
    ensures Key(MergedEdge(g0, g0[k].func, x, y)) in SpliceNode(g0, k, issue)[x.caller].IndexKeys(Out)
  {
    DeleteKeepsOK(g0, k);
    PairPresent(DeleteNodeNodes(g0, k), g0, issue, g0[k].func, g0[k].ins, g0[k].outs, x, y);
  }

  /** `MergedPresent` for a pair given by its two edges. */
  lemma PairPresent(g: Nodes, g0: Nodes, issue: set<string>, skipped: Func, ins: seq<Edge>, outs: seq<Edge>, x: Edge, y: Edge)
    requires GraphOK(g) && x in ins && y in outs && DoMerge(g0, issue, x, y)
    requires g0[x.caller].func.addr in g && g0[y.callee].func.addr in g
    ensures var e := MergedEdge(g0, skipped, x, y);
            && Key(e) in SpliceAll(g, g0, issue, skipped, Pairs(ins, outs))[e.callee].IndexKeys(In)
            && Key(e) in SpliceAll(g, g0, issue, skipped, Pairs(ins, outs))[e.caller].IndexKeys(Out)
  {
    var ps := Pairs(ins, outs);
    PairsSpec(ins, outs);
    assert (x, y) in ps;
    var m :| 0 <= m < |ps| && ps[m] == (x, y);
    MergedPresent(g, g0, issue, skipped, ps, m);
  }

  /**
   * Every edge listed after the splice of `k` was listed in the original graph
   * or is the merged edge of a pair of an incoming and an outgoing edge of `k`
   * that merges.
   */
  lemma SpliceNodeOnly(g0: Nodes, k: string, issue: set<string>, d: Dir)
    requires GraphOK(g0) && k in g0
    ensures forall j, e | j in SpliceNode(g0, k, issue) && e in SpliceNode(g0, k, issue)[j].List(d) ::
              e in g0[j].List(d) || exists x, y | x in g0[k].ins && y in g0[k].outs :: DoMerge(g0, issue, x, y) && e == MergedEdge(g0, g0[k].func, x, y)
  {
    var g1 := DeleteNodeNodes(g0, k);
    var ps := Pairs(g0[k].ins, g0[k].outs);
    var skipped := g0[k].func;
    DeleteNodeSpec(g0, k, g1);
    SpliceAllOnly(g1, g0, issue, skipped, ps, d);
    PairsSpec(g0[k].ins, g0[k].outs);
    var r := SpliceNode(g0, k, issue);
    forall j, e | j in r && e in r[j].List(d)
      ensures e in g0[j].List(d) || exists x, y | x in g0[k].ins && y in g0[k].outs :: DoMerge(g0, issue, x, y) && e == MergedEdge(g0, skipped, x, y)
    {
      if e !in g1[j].List(d) {
        var m :| MergesInto(g0, issue, skipped, ps, m, e);
        assert ps[m] in ps;
      } else {
        assert e in g0[j].List(d) by {
          if d.In? {
            assert e in g1[j].ins;
          } else {
            assert e in g1[j].outs;
          }
        }
      }
    }
  }
}

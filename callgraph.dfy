/**
 * The mutable call graph: a root node and the node table, updated in place by
 * `AddEdge` and `DeleteNode`, and copied by `GetFilteredCallgraph`. Every
 * operation is proved against the node-table function of module IR that
 * specifies it.
 */
module Graph {
  import opened Wrappers
  import opened IR

  class Callgraph {
    var root: Option<Node>
    var nodes: Nodes

    /** The symmetric-indexing invariant of the node table. */
    ghost predicate Valid()
      reads this
    {
      GraphOK(nodes)
    }

    constructor (root: Option<Node>, nodes: Nodes)
      ensures this.root == root && this.nodes == nodes
    {
      this.root := root;
      this.nodes := nodes;
    }

    /**
     * `AddEdge(callerFn, calleeFn, site)`: nothing when either key is missing;
     * otherwise the edge goes into the callee's in list, then the caller's out
     * list, each time unless its identity is already there.
     */
    method AddEdge(callerFn: string, calleeFn: string, site: Site)
      modifies this
      ensures nodes == AddEdgeNodes(old(nodes), callerFn, calleeFn, site) && root == old(root)
      ensures old(Valid()) ==> Valid()
    {
      if old(Valid()) {
        AddEdgeSpec(nodes, callerFn, calleeFn, site, AddEdgeNodes(nodes, callerFn, calleeFn, site));
      }
      if callerFn !in nodes || calleeFn !in nodes {
        return;
      }
      var edge := Edge(nodes[callerFn].func.addr, site, nodes[calleeFn].func.addr);
      nodes := nodes[calleeFn := nodes[calleeFn].AddIn(edge)];
      nodes := nodes[callerFn := nodes[callerFn].AddOut(edge)];
    }

    /**
     * `removeOutEdge` (d == Out) and `removeInEdge` (d == In): scan the holder's
     * list for the first edge with the same identity, overwrite it with the last
     * edge and drop the last slot.
     */
    method RemoveFirstMatch(edge: Edge, d: Dir)
      modifies this
      ensures nodes == RemoveEdge(old(nodes), edge, d) && root == old(root)
    {
      var h := edge.Holder(d);
      if h !in nodes {
        return;
      }
      var s := nodes[h].List(d);
      var n := |s|;
      var i := 0;
      while i < n
        invariant 0 <= i <= n
        invariant forall j | 0 <= j < i :: Key(s[j]) != Key(edge)
        invariant nodes == old(nodes)
      {
        if Key(s[i]) == Key(edge) {
          assert FirstIndex(s, Key(edge)) == i;
          var t := s[i := s[n - 1]][..n - 1];
          nodes := nodes[h := nodes[h].With(d, t)];
          return;
        }
        i := i + 1;
      }
      assert FirstIndex(s, Key(edge)) < 0;
      assert SwapRemoveFirst(s, Key(edge)) == s;
      assert nodes[h].With(d, s) == nodes[h];
    }

    /**
     * `Node.DeleteIns` (d == In) and `Node.DeleteOuts` (d == Out) on the node
     * stored under `k`: remove each listed edge from the far end's opposite list,
     * in order, then empty the node's own list.
     */
    method DeleteSide(k: string, d: Dir)
      requires k in nodes
      modifies this
      ensures nodes == IR.DeleteSide(old(nodes), k, d) && root == old(root)
    {
      var es := nodes[k].List(d);
      var i := 0;
      while i < |es|
        invariant 0 <= i <= |es|
        invariant nodes == RemoveEdges(old(nodes), es[..i], d.Flip()) && root == old(root)
      {
        RemoveFirstMatch(es[i], d.Flip());
        assert es[..i + 1][..i] == es[..i];
        i := i + 1;
      }
      assert es[..|es|] == es;
      nodes := nodes[k := nodes[k].With(d, [])];
    }

    /**
     * `DeleteNode`: when the node has many edges relative to the size of the
     * graph, rebuild the graph without every function of that name; otherwise
     * delete its in and out edges in place and drop its key.
     */
    method DeleteNode(k: string)
      requires k in nodes
      modifies this
      ensures nodes == DeleteNodeNodes(old(nodes), k)
      ensures root == if RebuildCheaper(old(nodes), k) then FilteredRoot(old(root)) else old(root)
      ensures old(Valid()) ==> Valid() && k !in nodes && Shrinks(old(nodes), nodes) && NoEdgeTouches(nodes, k)
    {
      ghost var g0 := nodes;
      var nIn, nOut := |nodes[k].ins|, |nodes[k].outs|;
      var nodeRate := |nodes| * ISqrt(|nodes|);
      var rebuild := nIn * nOut > nodeRate || (nIn + nOut) * (nIn + nOut) > nodeRate;
      assert rebuild == RebuildCheaper(g0, k);
      if rebuild {
        var c := GetFilteredCallgraph(this, NameIsNot(nodes[k].func.name));
        root, nodes := c.root, c.nodes;
      } else {
        var addr := nodes[k].func.addr;
        DeleteSide(k, In);
        DeleteSide(k, Out);
        nodes := nodes - {addr};
      }
      if GraphOK(g0) {
        DeleteNodeSpec(g0, k, nodes);
      }
    }
  }

  /** The filtered copy of one edge list: keep an edge when its far end's name passes. */
  method FilterList(g: Nodes, s: seq<Edge>, d: Dir, keep: string -> bool) returns (r: seq<Edge>)
    ensures r == FilterEdges(g, s, d, keep)
  {
    r := [];
    var i := 0;
    while i < |s|
      invariant 0 <= i <= |s|
      invariant r == FilterEdges(g, s[..i], d, keep)
    {
      assert s[..i + 1][..i] == s[..i];
      var e := s[i];
      if e.Far(d) in g && keep(g[e.Far(d)].func.name) {
        r := r + [e];
      }
      i := i + 1;
    }
    assert s[..|s|] == s;
  }

  /** A node of the filtered copy before its edges are filled in. */
  function Skeleton(n: Node): Node {
    Node(TrimFunc(n.func), n.id, [], [], {})
  }

  /**
   * The two loops of `GetFilteredCallgraph`: first copy every kept node
   * without edges, then fill in each copy's filtered in and out lists.
   */
  method FilterNodes(g: Nodes, keep: string -> bool) returns (r: Nodes)
    ensures r == FilteredNodes(g, keep)
  {
    r := map[];
    var todo := g.Keys;
    while todo != {}
      invariant todo <= g.Keys
      invariant forall k :: k in r <==> k in g && k !in todo && Keeps(g, k, keep)
      invariant forall k | k in r :: r[k] == Skeleton(g[k])
      decreases todo
    {
      var k :| k in todo;
      if k != "" && keep(g[k].func.name) {
        r := r[k := Skeleton(g[k])];
      }
      todo := todo - {k};
    }
    todo := r.Keys;
    while todo != {}
      invariant todo <= r.Keys
      invariant forall k :: k in r <==> k in g && Keeps(g, k, keep)
      invariant forall k | k in r && k in todo :: r[k] == Skeleton(g[k])
      invariant forall k | k in r && k !in todo :: r[k] == FilteredNodes(g, keep)[k]
      decreases todo
    {
      var k :| k in todo;
      var ins := FilterList(g, g[k].ins, In, keep);
      var outs := FilterList(g, g[k].outs, Out, keep);
      r := r[k := r[k].(ins := ins, outs := outs)];
      todo := todo - {k};
    }
  }

  /** `GetFilteredCallgraph`: a fresh graph holding the filtered copy of the root and of the nodes. */
  method GetFilteredCallgraph(graph: Callgraph, keep: string -> bool) returns (c: Callgraph)
    ensures fresh(c)
    ensures c.nodes == FilteredNodes(graph.nodes, keep) && c.root == FilteredRoot(graph.root)
    ensures GraphOK(graph.nodes) ==> GraphOK(c.nodes)
  {
    if GraphOK(graph.nodes) {
      FilteredSpec(graph.nodes, keep);
    }
    var nodes := FilterNodes(graph.nodes, keep);
    c := new Callgraph(FilteredRoot(graph.root), nodes);
  }
}

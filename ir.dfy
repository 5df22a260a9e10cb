/**
 * The graph IR of the call-flow engine: functions, call sites, edges and nodes,
 * kept in an arena (a map from a function's Addr to its node record). Edges name
 * their endpoints by Addr instead of pointing at node objects.
 */
module IR {
  import opened Wrappers
  import Strs

  /** A function: identity token `addr`, display name, signature, optional enclosing function. */
  datatype Func = Func(name: string, addr: string, parent: Option<Func>, signature: string)

  /** A call expression: display name and identity token. */
  datatype Site = Site(name: string, addr: string)

  /** Which adjacency list of a node: incoming (`In`) or outgoing (`Out`) edges. */
  datatype Dir = In | Out {
    function Flip(): Dir {
      if In? then Out else In
    }
  }

  /** A call edge from the function at Addr `caller`, through `site`, to the function at Addr `callee`. */
  datatype Edge = Edge(caller: string, site: Site, callee: string) {
    /** The node whose `d` list holds this edge: the callee for `In`, the caller for `Out`. */
    function Holder(d: Dir): string {
      if d.In? then callee else caller
    }

    /** The endpoint reached when the edge is walked from its holder. */
    function Far(d: Dir): string {
      if d.In? then caller else callee
    }
  }

  /** The part of a site token that makes up an edge's identity. */
  const SkipMark: string := "->Skip("

  function SiteKey(addr: string): string {
    if Strs.Contains(addr, SkipMark) then "Skip()" else addr
  }

  /** The identity of an edge: what `Edge.String` formats into one string. */
  datatype EdgeKey = EdgeKey(caller: string, site: string, callee: string)

  function Key(e: Edge): EdgeKey {
    EdgeKey(e.caller, SiteKey(e.site.addr), e.callee)
  }

  /** `Edge.String`: `<caller addr>-|<site addr>|-><callee addr>=`, skip sites collapsed to `Skip()`. */
  function EdgeString(e: Edge): string {
    var k := Key(e);
    k.caller + "-|" + k.site + "|->" + k.callee + "="
  }

  /** Every skip edge between the same caller and callee has one and the same identity. */
  lemma SkipEdgesShareKey(a: Edge, b: Edge)
    requires a.caller == b.caller && a.callee == b.callee
    requires Strs.Contains(a.site.addr, SkipMark) && Strs.Contains(b.site.addr, SkipMark)
    ensures Key(a) == Key(b) && Key(a).site == "Skip()"
  {
  }

  /** A node: one function, its stable ID, ordered in/out edge lists and its tag set. */
  datatype Node = Node(func: Func, id: int, ins: seq<Edge>, outs: seq<Edge>, tags: set<string>) {
    function List(d: Dir): seq<Edge> {
      if d.In? then ins else outs
    }

    function With(d: Dir, s: seq<Edge>): Node {
      if d.In? then this.(ins := s) else this.(outs := s)
    }

    /** The identities indexed by `inMap`/`outMap`, as `UpdateInOutMap` rebuilds them. */
    function IndexKeys(d: Dir): set<EdgeKey> {
      set e | e in List(d) :: Key(e)
    }

    /** `AddIn`/`AddOut`: append `e` unless an edge with its identity is already listed. */
    function Add(d: Dir, e: Edge): (r: Node)
      ensures r.func == func && r.id == id && r.tags == tags && r.List(d.Flip()) == List(d.Flip())
      ensures r.IndexKeys(d) == IndexKeys(d) + {Key(e)}
      ensures Key(e) in IndexKeys(d) ==> r == this
      ensures Key(e) !in IndexKeys(d) ==> r.List(d) == List(d) + [e]
      ensures DistinctKeys(List(d)) ==> DistinctKeys(r.List(d))
    {
      if Key(e) in IndexKeys(d) then this
      else
        var r := With(d, List(d) + [e]);
        assert r.List(d) == List(d) + [e];
        r
    }

    function AddIn(e: Edge): Node {
      Add(In, e)
    }

    function AddOut(e: Edge): Node {
      Add(Out, e)
    }

    function AddTag(tag: string): (r: Node)
      ensures r.HasTag(tag)
      ensures forall t :: t != tag ==> r.HasTag(t) == HasTag(t)
      ensures r.ins == ins && r.outs == outs && r.func == func
    {
      this.(tags := tags + {tag})
    }

    predicate HasTag(tag: string) {
      tag in tags
    }

    function ResetTags(): (r: Node)
      ensures forall t :: !r.HasTag(t)
      ensures r.ins == ins && r.outs == outs && r.func == func
    {
      this.(tags := {})
    }
  }

  /** Adding the same edge twice is the same as adding it once. */
  lemma AddIdempotent(n: Node, d: Dir, e: Edge)
    ensures n.Add(d, e).Add(d, e) == n.Add(d, e)
  {
  }

  type Nodes = map<string, Node>

  /** No two edges of a list share an identity (what the `inMap`/`outMap` guards maintain). */
  predicate DistinctKeys(s: seq<Edge>) {
    forall i, j | 0 <= i < j < |s| :: Key(s[i]) != Key(s[j])
  }

  /** The display name of the function at `addr`, "" when there is none (the nil-safe getters). */
  function NameOf(g: Nodes, addr: string): string {
    if addr in g then g[addr].func.name else ""
  }

  /** `Edge.ReadableString`: the identity format with function and site names instead of tokens. */
  function ReadableString(e: Edge, g: Nodes): string {
    var site := if Strs.Contains(e.site.name, SkipMark) then "Skip()" else e.site.name;
    NameOf(g, e.caller) + "-|" + site + "|->" + NameOf(g, e.callee) + "="
  }

  /**
   * The call-graph invariant: the table is keyed by function Addr (never empty),
   * every edge is listed by both endpoints (symmetric indexing), and no list
   * holds two edges of the same identity.
   */
  ghost predicate GraphOK(g: Nodes) {
    && "" !in g
    && (forall k | k in g :: g[k].func.addr == k)
    && (forall k | k in g :: DistinctKeys(g[k].ins) && DistinctKeys(g[k].outs))
    && (forall k, e | k in g && e in g[k].outs :: e.caller == k && e.callee in g && e in g[e.callee].ins)
    && (forall k, e | k in g && e in g[k].ins :: e.callee == k && e.caller in g && e in g[e.caller].outs)
  }

  /** The invariant seen from either list of one node. */
  lemma GraphOKAt(g: Nodes, k: string, d: Dir)
    requires GraphOK(g) && k in g
    ensures DistinctKeys(g[k].List(d))
    ensures forall e | e in g[k].List(d) :: e.Holder(d) == k && e.Far(d) in g && e in g[e.Far(d)].List(d.Flip())
  {
  }

  /** The invariant, established one direction at a time. */
  lemma GraphOKIntro(g: Nodes)
    requires "" !in g && forall k | k in g :: g[k].func.addr == k
    requires forall k | k in g :: DistinctKeys(g[k].ins) && DistinctKeys(g[k].outs)
    requires forall k, e | k in g && e in g[k].outs :: e.caller == k && e.callee in g && e in g[e.callee].ins
    requires forall k, e | k in g && e in g[k].ins :: e.callee == k && e.caller in g && e in g[e.caller].outs
    ensures GraphOK(g)
  {
  }

  /** Distinct identities imply distinct edges. */
  lemma DistinctKeysNoDup(s: seq<Edge>, i: int, j: int)
    requires DistinctKeys(s) && 0 <= i < |s| && 0 <= j < |s| && i != j
    ensures s[i] != s[j]
  {
  }

  // ---------------------------------------------------------------------------
  // Swap-remove (removeOutEdge / removeInEdge)

  /** Index of the first edge with identity `k`, or -1. */
  function FirstIndex(s: seq<Edge>, k: EdgeKey): (i: int)
    ensures -1 <= i < |s|
    ensures 0 <= i ==> Key(s[i]) == k && forall j | 0 <= j < i :: Key(s[j]) != k
    ensures i < 0 ==> forall j | 0 <= j < |s| :: Key(s[j]) != k
  {
    if s == [] then -1
    else if Key(s[0]) == k then 0
    else
      var r := FirstIndex(s[1..], k);
      if r < 0 then -1 else r + 1
  }

  /** Overwrite the first edge with identity `k` by the last edge and drop the last slot. */
  function SwapRemoveFirst(s: seq<Edge>, k: EdgeKey): seq<Edge> {
    var i := FirstIndex(s, k);
    if i < 0 then s else s[i := s[|s| - 1]][..|s| - 1]
  }

  /** What the swap-remove at index `i` leaves: the last edge moved into slot `i`. */
  lemma SwapIndex(s: seq<Edge>, i: int)
    requires 0 <= i < |s|
    ensures var r := s[i := s[|s| - 1]][..|s| - 1];
      && |r| == |s| - 1
      && (forall a | 0 <= a < |r| :: r[a] == s[if a == i then |s| - 1 else a])
  {
  }

  lemma SwapMultiset(s: seq<Edge>, i: int)
    requires 0 <= i < |s|
    ensures multiset(s[i := s[|s| - 1]][..|s| - 1]) == multiset(s) - multiset{s[i]}
  {
    var n := |s|;
    var r := s[i := s[n - 1]][..n - 1];
    SwapIndex(s, i);
    if i == n - 1 {
      assert r == s[..n - 1];
      assert s == s[..n - 1] + [s[n - 1]];
    } else {
      var a, b := s[..i], s[i + 1..n - 1];
      assert r == a + [s[n - 1]] + b;
      assert s == a + [s[i]] + b + [s[n - 1]];
      assert multiset(s) == multiset(a) + multiset{s[i]} + multiset(b) + multiset{s[n - 1]};
    }
  }

  /** Exactly the first match leaves (length drops by one); with no match nothing changes. */
  lemma SwapRemoveFirstSpec(s: seq<Edge>, k: EdgeKey)
    ensures var i := FirstIndex(s, k);
      && (i < 0 ==> SwapRemoveFirst(s, k) == s)
      && (0 <= i ==> |SwapRemoveFirst(s, k)| == |s| - 1
                     && multiset(SwapRemoveFirst(s, k)) == multiset(s) - multiset{s[i]})
  {
    var i := FirstIndex(s, k);
    if 0 <= i {
      SwapIndex(s, i);
      SwapMultiset(s, i);
    }
  }

  /** Swap-removing slot `i` of a list of distinct identities keeps them distinct. */
  lemma SwapDistinct(s: seq<Edge>, i: int, r: seq<Edge>)
    requires DistinctKeys(s) && 0 <= i < |s| && r == s[i := s[|s| - 1]][..|s| - 1]
    ensures DistinctKeys(r)
  {
    var n := |s|;
    SwapIndex(s, i);
    forall a, b | 0 <= a < b < |r| ensures Key(r[a]) != Key(r[b]) {
      var a' := if a == i then n - 1 else a;
      var b' := if b == i then n - 1 else b;
      assert r[a] == s[a'] && r[b] == s[b'];
    }
  }

  /** Swap-removing slot `i` of a list of distinct identities drops exactly `s[i]`. */
  lemma SwapMembers(s: seq<Edge>, i: int, r: seq<Edge>, x: Edge)
    requires DistinctKeys(s) && 0 <= i < |s| && r == s[i := s[|s| - 1]][..|s| - 1]
    ensures x in r <==> x in s && x != s[i]
  {
    var n := |s|;
    SwapIndex(s, i);
    if x in r {
      var a :| 0 <= a < |r| && r[a] == x;
      var a' := if a == i then n - 1 else a;
      DistinctKeysNoDup(s, a', i);
    }
    if x in s && x != s[i] {
      var j :| 0 <= j < n && s[j] == x;
      if j == n - 1 {
        assert r[i] == x;
      } else {
        assert r[j] == x;
      }
    }
  }

  /** In a list of distinct identities, removing a listed edge's identity removes that edge only. */
  lemma SwapRemoveMember(s: seq<Edge>, e: Edge)
    requires DistinctKeys(s) && e in s
    ensures var r := SwapRemoveFirst(s, Key(e));
      && DistinctKeys(r)
      && (forall x :: x in r <==> x in s && x != e)
  {
    var i := FirstIndex(s, Key(e));
    assert s[i] == e by {
      var j :| 0 <= j < |s| && s[j] == e;
      assert Key(s[j]) == Key(e);
    }
    var r := s[i := s[|s| - 1]][..|s| - 1];
    assert SwapRemoveFirst(s, Key(e)) == r;
    SwapDistinct(s, i, r);
    forall x ensures x in r <==> x in s && x != e {
      SwapMembers(s, i, r, x);
    }
  }


  // ---------------------------------------------------------------------------
  // Filtered copy (GetFilteredCallgraph)

  /** The copy of a function made by the filtered rebuild: its parent is kept one level deep. */
  function TrimFunc(f: Func): (r: Func)
    ensures r.name == f.name && r.addr == f.addr && r.signature == f.signature
    ensures r.parent.Some? == f.parent.Some?
    ensures f.parent.Some? ==>
              (r.parent.value.name == f.parent.value.name
               && r.parent.value.addr == f.parent.value.addr
               && r.parent.value.parent == None)
  {
    var p := if f.parent.Some? then Some(Func(f.parent.value.name, f.parent.value.addr, None, f.parent.value.signature)) else None;
    Func(f.name, f.addr, p, f.signature)
  }

  /** Whether the rebuild keeps the node stored under `k`. */
  predicate Keeps(g: Nodes, k: string, keep: string -> bool)
    requires k in g
  {
    k != "" && keep(g[k].func.name)
  }

  /** The edges of a `d` list whose far endpoint is a node whose name passes `keep`, in order. */
  function FilterEdges(g: Nodes, s: seq<Edge>, d: Dir, keep: string -> bool): seq<Edge>
    decreases |s|
  {
    if s == [] then []
    else
      var e := s[|s| - 1];
      FilterEdges(g, s[..|s| - 1], d, keep) + (if e.Far(d) in g && keep(g[e.Far(d)].func.name) then [e] else [])
  }

  lemma {:induction false} FilterEdgesSpec(g: Nodes, s: seq<Edge>, d: Dir, keep: string -> bool)
    ensures forall x :: x in FilterEdges(g, s, d, keep) <==> x in s && x.Far(d) in g && keep(g[x.Far(d)].func.name)
    ensures DistinctKeys(s) ==> DistinctKeys(FilterEdges(g, s, d, keep))
    decreases |s|
  {
    if s != [] {
      var p := s[..|s| - 1];
      var e := s[|s| - 1];
      assert s == p + [e];
      FilterEdgesSpec(g, p, d, keep);
      if DistinctKeys(s) {
        var fp := FilterEdges(g, p, d, keep);
        forall a | 0 <= a < |fp| ensures Key(fp[a]) != Key(e) {
          assert fp[a] in p;
          var j :| 0 <= j < |p| && p[j] == fp[a];
          assert s[j] == fp[a];
        }
      }
    }
  }

  /** The node table of `GetFilteredCallgraph(g, keep)`. */
  function FilteredNodes(g: Nodes, keep: string -> bool): Nodes {
    map k | k in g && Keeps(g, k, keep) ::
      Node(TrimFunc(g[k].func), g[k].id, FilterEdges(g, g[k].ins, In, keep), FilterEdges(g, g[k].outs, Out, keep), {})
  }

  /** The root of the filtered copy: same function (parent trimmed) and ID, no edges. */
  function FilteredRoot(root: Option<Node>): Option<Node> {
    if root.None? then None else Some(Node(TrimFunc(root.value.func), root.value.id, [], [], {}))
  }

  lemma FilteredListSpec(g: Nodes, keep: string -> bool, k: string, d: Dir)
    requires GraphOK(g) && k in FilteredNodes(g, keep)
    ensures var r := FilteredNodes(g, keep);
      && DistinctKeys(r[k].List(d))
      && (forall x :: x in r[k].List(d) <==> x in g[k].List(d) && keep(g[x.Far(d)].func.name))
  {
    var r := FilteredNodes(g, keep);
    GraphOKAt(g, k, d);
    FilterEdgesSpec(g, g[k].List(d), d, keep);
    assert r[k].List(d) == FilterEdges(g, g[k].List(d), d, keep);
  }

  lemma FilteredSym(g: Nodes, keep: string -> bool, k: string, d: Dir, e: Edge)
    requires GraphOK(g) && k in FilteredNodes(g, keep) && e in FilteredNodes(g, keep)[k].List(d)
    ensures var r := FilteredNodes(g, keep);
      e.Holder(d) == k && e.Far(d) in r && e in r[e.Far(d)].List(d.Flip())
  {
    var r := FilteredNodes(g, keep);
    var f := e.Far(d);
    FilteredListSpec(g, keep, k, d);
    GraphOKAt(g, k, d);
    assert e in g[k].List(d);
    assert e.Holder(d) == k && e in g[f].List(d.Flip());
    assert e.Far(d.Flip()) == k;
    assert f in r;
    FilteredListSpec(g, keep, f, d.Flip());
    assert e in r[f].List(d.Flip());
  }

  /**
   * The filtered copy keeps exactly the nodes whose key is non-empty and whose name passes,
   * keeps Addr, Name, Signature and ID, keeps an edge iff its far end passes,
   * and is again a well-formed call graph.
   */
  lemma FilteredSpec(g: Nodes, keep: string -> bool)
    requires GraphOK(g)
    ensures var r := FilteredNodes(g, keep);
      && GraphOK(r)
      && (forall k :: k in r <==> k in g && k != "" && keep(g[k].func.name))
      && (forall k | k in r :: r[k].func == TrimFunc(g[k].func) && r[k].id == g[k].id)
      && (forall k, d, x | k in r :: x in r[k].List(d) <==> x in g[k].List(d) && keep(g[x.Far(d)].func.name))
  {
    var r := FilteredNodes(g, keep);
    forall k, d | k in r
      ensures DistinctKeys(r[k].List(d))
      ensures forall x :: x in r[k].List(d) <==> x in g[k].List(d) && keep(g[x.Far(d)].func.name)
    {
      FilteredListSpec(g, keep, k, d);
    }
    forall k | k in r ensures DistinctKeys(r[k].ins) && DistinctKeys(r[k].outs) {
      FilteredListSpec(g, keep, k, In);
      FilteredListSpec(g, keep, k, Out);
    }
    forall k, e | k in r && e in r[k].outs ensures e.caller == k && e.callee in r && e in r[e.callee].ins {
      FilteredSym(g, keep, k, Out, e);
    }
    forall k, e | k in r && e in r[k].ins ensures e.callee == k && e.caller in r && e in r[e.caller].outs {
      FilteredSym(g, keep, k, In, e);
    }
    GraphOKIntro(r);
  }

  // ---------------------------------------------------------------------------
  // In-place deletion (DeleteIns / DeleteOuts / delete key)

  /** `removeOutEdge(e)` for `d == Out`, `removeInEdge(e)` for `d == In`. */
  function RemoveEdge(g: Nodes, e: Edge, d: Dir): (r: Nodes)
    ensures r.Keys == g.Keys
  {
    var h := e.Holder(d);
    if h in g then g[h := g[h].With(d, SwapRemoveFirst(g[h].List(d), Key(e)))] else g
  }

  /** The loop of `DeleteIns`/`DeleteOuts`: remove each edge of `es`, in order. */
  function RemoveEdges(g: Nodes, es: seq<Edge>, d: Dir): (r: Nodes)
    ensures r.Keys == g.Keys
    decreases |es|
  {
    if es == [] then g else RemoveEdge(RemoveEdges(g, es[..|es| - 1], d), es[|es| - 1], d)
  }

  /** `r` differs from `g` at most in the `d` lists of its nodes. */
  ghost predicate OnlyListsChanged(g: Nodes, r: Nodes, d: Dir) {
    r.Keys == g.Keys && forall k | k in g :: r[k] == g[k].With(d, r[k].List(d))
  }

  /** Every edge in a `d` list is held by the node that lists it, and no list repeats an identity. */
  ghost predicate ListsOK(g: Nodes, d: Dir) {
    (forall k | k in g :: DistinctKeys(g[k].List(d)))
    && (forall k, x | k in g && x in g[k].List(d) :: x.Holder(d) == k)
  }

  lemma OnlyListsChangedTrans(a: Nodes, b: Nodes, c: Nodes, d: Dir)
    requires OnlyListsChanged(a, b, d) && OnlyListsChanged(b, c, d)
    ensures OnlyListsChanged(a, c, d)
  {
    forall k | k in a ensures c[k] == a[k].With(d, c[k].List(d)) {
      assert b[k] == a[k].With(d, b[k].List(d));
      assert c[k] == b[k].With(d, c[k].List(d));
    }
  }

  /** The `d` lists of `r` are those of `g` without the edges of `es`. */
  ghost predicate ListsWithout(g: Nodes, r: Nodes, d: Dir, es: seq<Edge>) {
    forall k, x | k in g && k in r :: x in r[k].List(d) <==> x in g[k].List(d) && x !in es
  }

  lemma RemoveEdgeStep(g: Nodes, e: Edge, d: Dir)
    requires ListsOK(g, d)
    requires e.Holder(d) in g && e in g[e.Holder(d)].List(d)
    ensures var r := RemoveEdge(g, e, d);
      && OnlyListsChanged(g, r, d) && ListsOK(r, d)
      && ListsWithout(g, r, d, [e])
  {
    var h := e.Holder(d);
    SwapRemoveMember(g[h].List(d), e);
    var r := RemoveEdge(g, e, d);
    assert r[h].List(d) == SwapRemoveFirst(g[h].List(d), Key(e));
    forall k, x | k in g ensures x in r[k].List(d) <==> x in g[k].List(d) && x != e {
      if k != h && x in g[k].List(d) {
        assert x.Holder(d) == k;
      }
    }
  }

  lemma LastNotInPrefix(es: seq<Edge>)
    requires DistinctKeys(es) && es != []
    ensures es[|es| - 1] !in es[..|es| - 1]
  {
    forall i | 0 <= i < |es| - 1 ensures es[i] != es[|es| - 1] {
      DistinctKeysNoDup(es, i, |es| - 1);
    }
  }

  lemma RemoveEdgesAppend(g: Nodes, q: Nodes, es: seq<Edge>, d: Dir)
    requires es != []
    requires OnlyListsChanged(g, q, d) && ListsOK(q, d) && ListsWithout(g, q, d, es[..|es| - 1])
    requires var e := es[|es| - 1]; e !in es[..|es| - 1] && e.Holder(d) in g && e in g[e.Holder(d)].List(d)
    ensures var r := RemoveEdge(q, es[|es| - 1], d);
      && OnlyListsChanged(g, r, d) && ListsOK(r, d)
      && ListsWithout(g, r, d, es)
  {
    var p, e := es[..|es| - 1], es[|es| - 1];
    assert es == p + [e];
    assert e in q[e.Holder(d)].List(d);
    RemoveEdgeStep(q, e, d);
    var r := RemoveEdge(q, e, d);
    OnlyListsChangedTrans(g, q, r, d);
    forall k, x | k in g ensures x in r[k].List(d) <==> x in g[k].List(d) && x !in es {
      assert x in es <==> x in p || x == e;
      assert x in q[k].List(d) <==> x in g[k].List(d) && x !in p;
      assert x in r[k].List(d) <==> x in q[k].List(d) && x !in [e];
    }
    assert OnlyListsChanged(g, r, d);
    assert ListsOK(r, d);
    assert ListsWithout(g, r, d, es);
  }

  /**
   * Removing a list of distinct edges, each listed by its holder, takes exactly
   * those edges out of the `d` lists and touches nothing else.
   */
  lemma {:induction false} RemoveEdgesSpec(g: Nodes, es: seq<Edge>, d: Dir)
    requires DistinctKeys(es) && ListsOK(g, d)
    requires forall e | e in es :: e.Holder(d) in g && e in g[e.Holder(d)].List(d)
    ensures var r := RemoveEdges(g, es, d);
      && OnlyListsChanged(g, r, d) && ListsOK(r, d)
      && ListsWithout(g, r, d, es)
    decreases |es|
  {
    if es == [] {
      forall k | k in g ensures g[k] == g[k].With(d, g[k].List(d)) {
      }
    } else {
      var p := es[..|es| - 1];
      var e := es[|es| - 1];
      assert e in es;
      assert e.Holder(d) in g && e in g[e.Holder(d)].List(d);
      LastNotInPrefix(es);
      assert DistinctKeys(p);
      RemoveEdgesSpec(g, p, d);
      var q := RemoveEdges(g, p, d);
      RemoveEdgesAppend(g, q, es, d);
      var r := RemoveEdges(g, es, d);
      assert r == RemoveEdge(q, e, d);
      assert OnlyListsChanged(g, r, d);
      assert ListsOK(r, d);
      assert ListsWithout(g, r, d, es);
    }
  }

  /** `Node.DeleteIns` (d == In) or `Node.DeleteOuts` (d == Out) on node `k`. */
  function DeleteSide(g: Nodes, k: string, d: Dir): (r: Nodes)
    requires k in g
    ensures r.Keys == g.Keys
  {
    var g1 := RemoveEdges(g, g[k].List(d), d.Flip());
    g1[k := g1[k].With(d, [])]
  }

  /** The in-place branch of `DeleteNode`: `DeleteIns`, `DeleteOuts`, then drop the key. */
  function DeleteInPlace(g: Nodes, k: string): Nodes
    requires k in g
  {
    var g2 := DeleteSide(DeleteSide(g, k, In), k, Out);
    g2 - {g[k].func.addr}
  }

  /** Integer floor square root (`int(math.Sqrt(float64(n)))`). */
  function ISqrt(n: nat): (r: nat)
    ensures r * r <= n < (r + 1) * (r + 1)
  {
    if n == 0 then 0
    else
      var r := ISqrt(n - 1);
      if (r + 1) * (r + 1) <= n then
        assert (r + 2) * (r + 2) == (r + 1) * (r + 1) + 2 * r + 3;
        r + 1
      else r
  }

  /** The cost test of `DeleteNode`: rebuild when in*out or (in+out)^2 exceeds |Nodes| * floor(sqrt |Nodes|). */
  predicate RebuildCheaper(g: Nodes, k: string)
    requires k in g
  {
    var nIn, nOut := |g[k].ins|, |g[k].outs|;
    var rate := |g| * ISqrt(|g|);
    nIn * nOut > rate || (nIn + nOut) * (nIn + nOut) > rate
  }

  /** The filter of the rebuild branch: drop every function named like the deleted one. */
  function NameIsNot(name: string): string -> bool {
    s => s != name
  }

  /** The node table `DeleteNode` produces. */
  function DeleteNodeNodes(g: Nodes, k: string): Nodes
    requires k in g
  {
    if RebuildCheaper(g, k) then FilteredNodes(g, NameIsNot(g[k].func.name)) else DeleteInPlace(g, k)
  }

  /** What deleting node `k` in place must leave: every other node, minus the edges that touch `k`. */
  ghost predicate CutOut(g: Nodes, r: Nodes, k: string) {
    && r.Keys == g.Keys - {k}
    && (forall j | j in r && j in g :: r[j].func == g[j].func && r[j].id == g[j].id && r[j].tags == g[j].tags)
    && (forall j | j in r :: DistinctKeys(r[j].ins) && DistinctKeys(r[j].outs))
    && (forall j, x | j in r && j in g :: x in r[j].outs <==> x in g[j].outs && x.callee != k)
    && (forall j, x | j in r && j in g :: x in r[j].ins <==> x in g[j].ins && x.caller != k)
  }

  /** The invariant gives each direction's lists the shape the removal loop needs. */
  lemma GraphListsOK(g: Nodes, d: Dir)
    requires GraphOK(g)
    ensures ListsOK(g, d)
  {
    forall j | j in g ensures DistinctKeys(g[j].List(d)) && forall x | x in g[j].List(d) :: x.Holder(d) == j {
      GraphOKAt(g, j, d);
    }
  }

  /** The facts `DeleteIns` on `k` leaves in `a`, and `DeleteOuts` starts from. */
  ghost predicate AfterDeleteIns(g: Nodes, a: Nodes, k: string)
    requires k in g
  {
    && a.Keys == g.Keys
    && (forall j | j in g :: a[j].func == g[j].func && a[j].id == g[j].id && a[j].tags == g[j].tags)
    && (forall j | j in g && j != k :: a[j].ins == g[j].ins)
    && a[k].ins == []
    && (forall j | j in g :: DistinctKeys(a[j].outs))
    && (forall j, x | j in g :: x in a[j].outs <==> x in g[j].outs && x.callee != k)
  }

  /** `DeleteIns` on `k`: every out list loses its edges into `k`; `k`'s in list is emptied. */
  lemma DeleteInsSpec(g: Nodes, k: string)
    requires GraphOK(g) && k in g
    ensures AfterDeleteIns(g, DeleteSide(g, k, In), k)
  {
    var es := g[k].ins;
    GraphOKAt(g, k, In);
    GraphListsOK(g, Out);
    forall e | e in es ensures e.Holder(Out) in g && e in g[e.Holder(Out)].List(Out) {
      assert e.Far(In) == e.Holder(Out);
    }
    RemoveEdgesSpec(g, es, Out);
    DeleteInsFacts(g, RemoveEdges(g, es, Out), k, DeleteSide(g, k, In));
  }

  lemma DeleteInsFacts(g: Nodes, g1: Nodes, k: string, a: Nodes)
    requires GraphOK(g) && k in g
    requires OnlyListsChanged(g, g1, Out) && ListsOK(g1, Out) && ListsWithout(g, g1, Out, g[k].ins)
    requires a == g1[k := g1[k].With(In, [])]
    ensures AfterDeleteIns(g, a, k)
  {
    forall j | j in g
      ensures a[j].func == g[j].func && a[j].id == g[j].id && a[j].tags == g[j].tags
      ensures j != k ==> a[j].ins == g[j].ins
      ensures a[j].outs == g1[j].outs
    {
      assert g1[j] == g[j].With(Out, g1[j].List(Out));
    }
    forall j | j in g ensures DistinctKeys(a[j].outs) {
      InsCutAt(g, g1, k, j, Edge("", Site("", ""), ""));
    }
    forall j, x | j in g ensures x in a[j].outs <==> x in g[j].outs && x.callee != k {
      InsCutAt(g, g1, k, j, x);
    }
  }

  lemma InsCutAt(g: Nodes, g1: Nodes, k: string, j: string, x: Edge)
    requires GraphOK(g) && k in g && j in g && g1.Keys == g.Keys
    requires ListsOK(g1, Out) && ListsWithout(g, g1, Out, g[k].ins)
    ensures DistinctKeys(g1[j].outs)
    ensures x in g1[j].outs <==> x in g[j].outs && x.callee != k
  {
    assert g1[j].outs == g1[j].List(Out);
    assert x in g1[j].List(Out) <==> x in g[j].List(Out) && x !in g[k].ins;
    if x in g[j].outs && x.callee == k {
      assert x in g[x.callee].ins;
    }
  }

  lemma AfterDeleteInsAt(g: Nodes, a: Nodes, k: string, j: string, x: Edge)
    requires k in g && AfterDeleteIns(g, a, k) && j in g
    ensures x in a[j].outs <==> x in g[j].outs && x.callee != k
  {
  }

  /** `DeleteOuts` on `k`, once `DeleteIns` has run: every in list loses its edges out of `k`. */
  lemma DeleteOutsAfter(g: Nodes, a: Nodes, k: string, b: Nodes)
    requires GraphOK(g) && k in g && AfterDeleteIns(g, a, k)
    requires b == DeleteSide(a, k, Out)
    ensures CutOut(g, b - {k}, k)
  {
    var es := a[k].outs;
    forall j | j in a ensures DistinctKeys(a[j].List(In)) && forall x | x in a[j].List(In) :: x.Holder(In) == j {
      if j != k {
        GraphOKAt(g, j, In);
      }
    }
    assert ListsOK(a, In);
    assert DistinctKeys(es);
    forall e | e in es ensures e.Holder(In) in a && e in a[e.Holder(In)].List(In) {
      assert e in a[k].outs;
      assert e in g[k].outs && e.callee != k;
      assert e in g[e.callee].ins;
    }
    RemoveEdgesSpec(a, es, In);
    DeleteOutsFacts(g, a, RemoveEdges(a, es, In), k, b);
  }

  lemma DeleteOutsFacts(g: Nodes, a: Nodes, a1: Nodes, k: string, b: Nodes)
    requires GraphOK(g) && k in g && AfterDeleteIns(g, a, k)
    requires OnlyListsChanged(a, a1, In) && ListsOK(a1, In) && ListsWithout(a, a1, In, a[k].outs)
    requires b == a1[k := a1[k].With(Out, [])]
    ensures CutOut(g, b - {k}, k)
  {
    var r := b - {k};
    forall j | j in r
      ensures j in g && j != k
      ensures r[j].func == g[j].func && r[j].id == g[j].id && r[j].tags == g[j].tags
      ensures r[j].outs == a[j].outs && r[j].ins == a1[j].ins
    {
      assert a1[j] == a[j].With(In, a1[j].List(In));
    }
    forall j, x | j in r && j in g ensures x in r[j].ins <==> x in g[j].ins && x.caller != k {
      OutsCutAt(g, a, a1, k, j, x);
    }
    forall j, x | j in r && j in g ensures x in r[j].outs <==> x in g[j].outs && x.callee != k {
      assert r[j].outs == a[j].outs;
      AfterDeleteInsAt(g, a, k, j, x);
    }
    forall j | j in r ensures DistinctKeys(r[j].ins) && DistinctKeys(r[j].outs) {
      OutsCutAt(g, a, a1, k, j, Edge("", Site("", ""), ""));
    }
    assert r.Keys == g.Keys - {k};
    assert CutOut(g, r, k);
  }

  lemma OutsCutAt(g: Nodes, a: Nodes, a1: Nodes, k: string, j: string, x: Edge)
    requires GraphOK(g) && k in g && j in g && j != k && AfterDeleteIns(g, a, k) && a1.Keys == g.Keys
    requires ListsOK(a1, In) && ListsWithout(a, a1, In, a[k].outs)
    ensures DistinctKeys(a1[j].ins)
    ensures x in a1[j].ins <==> x in g[j].ins && x.caller != k
  {
    assert a1[j].ins == a1[j].List(In);
    assert x in a1[j].List(In) <==> x in a[j].List(In) && x !in a[k].outs;
    if x in g[j].ins {
      assert x.callee == j;
      if x.caller == k {
        assert x in g[k].outs;
      }
    }
  }

  /**
   * The in-place branch of `DeleteNode` removes exactly node `k` and the edges
   * that touch it, and leaves a well-formed graph.
   */
  lemma DeleteInPlaceSpec(g: Nodes, k: string)
    requires GraphOK(g) && k in g
    ensures var r := DeleteInPlace(g, k);
      && CutOut(g, r, k)
      && GraphOK(r)
  {
    DeleteInsSpec(g, k);
    var a := DeleteSide(g, k, In);
    var b := DeleteSide(a, k, Out);
    DeleteOutsAfter(g, a, k, b);
    var r := DeleteInPlace(g, k);
    assert r == b - {k};
    CutOutOK(g, r, k);
  }

  /** Cutting a node and every edge touching it out of a well-formed graph leaves a well-formed graph. */
  lemma CutOutOK(g: Nodes, r: Nodes, k: string)
    requires GraphOK(g) && CutOut(g, r, k)
    ensures GraphOK(r)
  {
    forall j, e | j in r && e in r[j].outs ensures e.caller == j && e.callee in r && e in r[e.callee].ins {
      assert j in g;
      assert e in g[j].outs && e.callee != k;
      assert e in g[e.callee].ins;
    }
    forall j, e | j in r && e in r[j].ins ensures e.callee == j && e.caller in r && e in r[e.caller].outs {
      assert j in g;
      assert e in g[j].ins && e.caller != k;
      assert e in g[e.caller].outs;
    }
    GraphOKIntro(r);
  }

  /** `r` keeps a subset of `g`'s nodes, with the same identities, and only drops edges. */
  ghost predicate Shrinks(g: Nodes, r: Nodes) {
    && r.Keys <= g.Keys
    && (forall j | j in r && j in g :: TrimFunc(r[j].func) == TrimFunc(g[j].func) && r[j].id == g[j].id)
    && (forall j, x | j in r && j in g && x in r[j].ins :: x in g[j].ins)
    && (forall j, x | j in r && j in g && x in r[j].outs :: x in g[j].outs)
  }

  /** No edge listed anywhere in `r` has `k` as an endpoint. */
  ghost predicate NoEdgeTouches(r: Nodes, k: string) {
    && (forall j, x | j in r && x in r[j].ins :: x.caller != k && x.callee != k)
    && (forall j, x | j in r && x in r[j].outs :: x.caller != k && x.callee != k)
  }

  /** No edge of a well-formed graph touches a node that is not in it. */
  lemma NoEdgeTo(r: Nodes, k: string)
    requires GraphOK(r) && k !in r
    ensures NoEdgeTouches(r, k)
  {
  }

  /** The filtered copy keeps a subset of the nodes, with their identities, and only drops edges. */
  lemma FilteredShrinks(g: Nodes, keep: string -> bool, r: Nodes)
    requires GraphOK(g) && r == FilteredNodes(g, keep)
    ensures Shrinks(g, r)
  {
    forall j | j in r && j in g
      ensures TrimFunc(r[j].func) == TrimFunc(g[j].func) && r[j].id == g[j].id
      ensures forall x | x in r[j].ins :: x in g[j].ins
      ensures forall x | x in r[j].outs :: x in g[j].outs
    {
      FilteredListSpec(g, keep, j, In);
      FilteredListSpec(g, keep, j, Out);
    }
  }

  lemma DeleteRebuildSpec(g: Nodes, k: string, r: Nodes)
    requires GraphOK(g) && k in g && r == FilteredNodes(g, NameIsNot(g[k].func.name))
    ensures GraphOK(r) && k !in r && Shrinks(g, r)
    ensures forall j :: j in r <==> j in g && g[j].func.name != g[k].func.name
  {
    var keep := NameIsNot(g[k].func.name);
    FilteredSpec(g, keep);
    FilteredShrinks(g, keep, r);
  }

  /** Cutting `k` out keeps the other nodes, with their identities, and only drops edges. */
  lemma CutOutShrinks(g: Nodes, r: Nodes, k: string)
    requires CutOut(g, r, k)
    ensures Shrinks(g, r) && k !in r
  {
    forall j, x | j in r && j in g && x in r[j].ins ensures x in g[j].ins {
      assert x in r[j].ins <==> x in g[j].ins && x.caller != k;
    }
    forall j, x | j in r && j in g && x in r[j].outs ensures x in g[j].outs {
      assert x in r[j].outs <==> x in g[j].outs && x.callee != k;
    }
  }

  lemma DeleteInPlaceShrinks(g: Nodes, k: string, r: Nodes)
    requires GraphOK(g) && k in g && r == DeleteInPlace(g, k)
    ensures GraphOK(r) && k !in r && Shrinks(g, r) && r.Keys == g.Keys - {k}
  {
    DeleteInPlaceSpec(g, k);
    CutOutShrinks(g, r, k);
  }

  /**
   * `DeleteNode` leaves a well-formed graph without `k` and without any edge that
   * touches `k`; surviving nodes keep their identity and lose edges only. The
   * in-place branch removes `k` alone; the rebuild branch removes every
   * function sharing `k`'s name.
   */
  lemma DeleteNodeSpec(g: Nodes, k: string, r: Nodes)
    requires GraphOK(g) && k in g && r == DeleteNodeNodes(g, k)
    ensures GraphOK(r) && k !in r && Shrinks(g, r) && NoEdgeTouches(r, k)
    ensures !RebuildCheaper(g, k) ==> r.Keys == g.Keys - {k}
    ensures RebuildCheaper(g, k) ==> forall j :: j in r <==> j in g && g[j].func.name != g[k].func.name
  {
    if RebuildCheaper(g, k) {
      DeleteRebuildSpec(g, k, r);
    } else {
      DeleteInPlaceShrinks(g, k, r);
    }
    NoEdgeTo(r, k);
  }

  /** The node table `AddEdge(caller, callee, site)` produces. */
  function AddEdgeNodes(g: Nodes, caller: string, callee: string, site: Site): Nodes {
    if caller !in g || callee !in g then g
    else
      var e := Edge(g[caller].func.addr, site, g[callee].func.addr);
      var g1 := g[callee := g[callee].AddIn(e)];
      g1[caller := g1[caller].AddOut(e)]
  }

  /** Under the invariant an identity is listed by the callee's in list iff by the caller's out list. */
  lemma IndexedBothWays(g: Nodes, a: string, b: string, site: Site)
    requires GraphOK(g) && a in g && b in g
    ensures var e := Edge(a, site, b);
      Key(e) in g[b].IndexKeys(In) <==> Key(e) in g[a].IndexKeys(Out)
  {
    var e := Edge(a, site, b);
    if Key(e) in g[b].IndexKeys(In) {
      var x :| x in g[b].List(In) && Key(x) == Key(e);
      assert x in g[b].ins;
      assert x in g[a].outs;
      assert x in g[a].List(Out);
    }
    if Key(e) in g[a].IndexKeys(Out) {
      var x :| x in g[a].List(Out) && Key(x) == Key(e);
      assert x in g[a].outs;
      assert x in g[b].ins;
      assert x in g[b].List(In);
    }
  }

  /** `r` is `g` with `e` appended to `b`'s in list and to `a`'s out list, nothing else changed. */
  ghost predicate AppendedAt(g: Nodes, r: Nodes, a: string, b: string, e: Edge) {
    && r.Keys == g.Keys
    && (forall j | j in g :: r[j].func == g[j].func)
    && (forall j | j in g :: r[j].ins == if j == b then g[j].ins + [e] else g[j].ins)
    && (forall j | j in g :: r[j].outs == if j == a then g[j].outs + [e] else g[j].outs)
  }

  lemma AddEdgeAppended(g: Nodes, a: string, b: string, site: Site)
    requires a in g && b in g
    requires Key(Edge(g[a].func.addr, site, g[b].func.addr)) !in g[b].IndexKeys(In)
    requires Key(Edge(g[a].func.addr, site, g[b].func.addr)) !in g[a].IndexKeys(Out)
    ensures AppendedAt(g, AddEdgeNodes(g, a, b, site), a, b, Edge(g[a].func.addr, site, g[b].func.addr))
  {
    var e := Edge(g[a].func.addr, site, g[b].func.addr);
    var nb := g[b].AddIn(e);
    assert nb.ins == g[b].ins + [e] && nb.outs == g[b].outs && nb.func == g[b].func;
    var g1 := g[b := nb];
    assert g1[a].IndexKeys(Out) == g[a].IndexKeys(Out);
    var na := g1[a].AddOut(e);
    assert na.outs == g1[a].outs + [e] && na.ins == g1[a].ins && na.func == g1[a].func;
    var r := g1[a := na];
    assert r == AddEdgeNodes(g, a, b, site);
    forall j | j in g
      ensures r[j].func == g[j].func
      ensures r[j].ins == if j == b then g[j].ins + [e] else g[j].ins
      ensures r[j].outs == if j == a then g[j].outs + [e] else g[j].outs
    {
    }
  }

  /** Appending an edge whose identity is not yet listed keeps a list's identities distinct. */
  lemma DistinctAppend(s: seq<Edge>, e: Edge)
    requires DistinctKeys(s) && Key(e) !in (set x | x in s :: Key(x))
    ensures DistinctKeys(s + [e])
  {
    var t := s + [e];
    forall i, j | 0 <= i < j < |t| ensures Key(t[i]) != Key(t[j]) {
      if j == |s| {
        assert t[i] in s;
      }
    }
  }

  lemma AppendDistinctAt(g: Nodes, r: Nodes, a: string, b: string, e: Edge, j: string)
    requires GraphOK(g) && a in g && b in g && j in g
    requires Key(e) !in g[b].IndexKeys(In) && Key(e) !in g[a].IndexKeys(Out)
    requires AppendedAt(g, r, a, b, e)
    ensures DistinctKeys(r[j].ins) && DistinctKeys(r[j].outs)
  {
    GraphOKAt(g, j, In);
    GraphOKAt(g, j, Out);
    if j == b {
      DistinctAppend(g[j].ins, e);
    }
    if j == a {
      DistinctAppend(g[j].outs, e);
    }
  }

  lemma AppendOutAt(g: Nodes, r: Nodes, a: string, b: string, e: Edge, j: string, x: Edge)
    requires GraphOK(g) && a in g && b in g && e.caller == a && e.callee == b
    requires AppendedAt(g, r, a, b, e)
    requires j in r && x in r[j].outs
    ensures x.caller == j && x.callee in r && x in r[x.callee].ins
  {
    assert j in g;
    if x != e {
      assert x in g[j].outs;
      assert x in g[x.callee].ins;
    }
  }

  lemma AppendInAt(g: Nodes, r: Nodes, a: string, b: string, e: Edge, j: string, x: Edge)
    requires GraphOK(g) && a in g && b in g && e.caller == a && e.callee == b
    requires AppendedAt(g, r, a, b, e)
    requires j in r && x in r[j].ins
    ensures x.callee == j && x.caller in r && x in r[x.caller].outs
  {
    assert j in g;
    if x != e {
      assert x in g[j].ins;
      assert x in g[x.caller].outs;
    }
  }

  /** Appending a fresh edge to both of its endpoints' lists keeps the invariant. */
  lemma AppendOK(g: Nodes, r: Nodes, a: string, b: string, e: Edge)
    requires GraphOK(g) && a in g && b in g && e.caller == a && e.callee == b
    requires Key(e) !in g[b].IndexKeys(In) && Key(e) !in g[a].IndexKeys(Out)
    requires AppendedAt(g, r, a, b, e)
    ensures GraphOK(r)
  {
    forall j | j in r ensures DistinctKeys(r[j].ins) && DistinctKeys(r[j].outs) {
      AppendDistinctAt(g, r, a, b, e, j);
    }
    forall j, x | j in r && x in r[j].outs ensures x.caller == j && x.callee in r && x in r[x.callee].ins {
      AppendOutAt(g, r, a, b, e, j, x);
    }
    forall j, x | j in r && x in r[j].ins ensures x.callee == j && x.caller in r && x in r[x.caller].outs {
      AppendInAt(g, r, a, b, e, j, x);
    }
    GraphOKIntro(r);
  }

  lemma AddEdgeAppendOK(g: Nodes, a: string, b: string, site: Site)
    requires GraphOK(g) && a in g && b in g
    requires Key(Edge(a, site, b)) !in g[b].IndexKeys(In) && Key(Edge(a, site, b)) !in g[a].IndexKeys(Out)
    ensures GraphOK(AddEdgeNodes(g, a, b, site))
    ensures AppendedAt(g, AddEdgeNodes(g, a, b, site), a, b, Edge(a, site, b))
  {
    assert g[a].func.addr == a && g[b].func.addr == b;
    AddEdgeAppended(g, a, b, site);
    AppendOK(g, AddEdgeNodes(g, a, b, site), a, b, Edge(a, site, b));
  }

  /**
   * `AddEdge` keeps the graph well-formed, leaves the edge's identity indexed on
   * both endpoints, only appends (to both lists or to neither) and touches no
   * other node.
   */
  /** `AddEdge` changes at most the caller's and the callee's nodes. */
  lemma AddEdgeFrame(g: Nodes, a: string, b: string, site: Site)
    ensures AddEdgeNodes(g, a, b, site).Keys == g.Keys
    ensures forall j | j in g && j != a && j != b :: AddEdgeNodes(g, a, b, site)[j] == g[j]
  {
  }

  /** An edge whose identity both endpoints already index is not added again. */
  lemma AddEdgeNoop(g: Nodes, a: string, b: string, site: Site)
    requires a in g && b in g
    requires Key(Edge(g[a].func.addr, site, g[b].func.addr)) in g[b].IndexKeys(In)
    requires Key(Edge(g[a].func.addr, site, g[b].func.addr)) in g[a].IndexKeys(Out)
    ensures AddEdgeNodes(g, a, b, site) == g
  {
    var e := Edge(g[a].func.addr, site, g[b].func.addr);
    assert g[b].AddIn(e) == g[b];
    assert g[b := g[b].AddIn(e)] == g;
    assert g[a].AddOut(e) == g[a];
  }

  /** After `AddEdge` both endpoints index the edge's identity and keep their functions. */
  lemma AddEdgeIndexes(g: Nodes, a: string, b: string, site: Site)
    requires a in g && b in g
    ensures var r := AddEdgeNodes(g, a, b, site);
      && a in r && b in r && r[a].func == g[a].func && r[b].func == g[b].func
      && Key(Edge(g[a].func.addr, site, g[b].func.addr)) in r[b].IndexKeys(In)
      && Key(Edge(g[a].func.addr, site, g[b].func.addr)) in r[a].IndexKeys(Out)
  {
    var e := Edge(g[a].func.addr, site, g[b].func.addr);
    var nb := g[b].AddIn(e);
    var g1 := g[b := nb];
    var na := g1[a].AddOut(e);
    assert Key(e) in nb.IndexKeys(In);
    assert Key(e) in na.IndexKeys(Out);
    assert a == b ==> Key(e) in na.IndexKeys(In);
  }

  lemma AddEdgeSpec(g: Nodes, a: string, b: string, site: Site, r: Nodes)
    requires GraphOK(g) && r == AddEdgeNodes(g, a, b, site)
    ensures GraphOK(r) && r.Keys == g.Keys
    ensures a !in g || b !in g ==> r == g
    ensures a in g && b in g ==> Key(Edge(a, site, b)) in r[b].IndexKeys(In) && Key(Edge(a, site, b)) in r[a].IndexKeys(Out)
    ensures a in g && b in g ==> r == g || AppendedAt(g, r, a, b, Edge(a, site, b))
    ensures forall j | j in g && j != a && j != b :: r[j] == g[j]
  {
    AddEdgeFrame(g, a, b, site);
    if a in g && b in g {
      var e := Edge(a, site, b);
      IndexedBothWays(g, a, b, site);
      if Key(e) in g[b].IndexKeys(In) {
        AddEdgeNoop(g, a, b, site);
      } else {
        AddEdgeAppendOK(g, a, b, site);
        assert r[b].ins == g[b].ins + [e] && r[a].outs == g[a].outs + [e];
        assert e in r[b].List(In) && e in r[a].List(Out);
      }
    }
  }

  /** Adding the same call edge twice leaves the same graph as adding it once. */
  lemma AddEdgeIdempotent(g: Nodes, a: string, b: string, site: Site)
    ensures AddEdgeNodes(AddEdgeNodes(g, a, b, site), a, b, site) == AddEdgeNodes(g, a, b, site)
  {
    if a in g && b in g {
      AddEdgeIndexes(g, a, b, site);
      AddEdgeNoop(AddEdgeNodes(g, a, b, site), a, b, site);
    }
  }
}

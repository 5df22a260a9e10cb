/**
 * A flow entity: one configured pattern set and four lazily filled caches, the
 * nodes that match it (`NodeSet`), the callers that feed it (`InNodeSet`), the
 * callees it feeds (`OutNodeSet`) and its example paths. Each operation of the
 * `Entity` class is proved against a function on the cache values, and the
 * lemmas about those functions state what the caches mean.
 */
module Entities {
  import opened Wrappers
  import opened IR
  import opened Modes
  import Config
  import opened Search

  /** The entity constrains side `d` of its nodes (`IsCheckIn` for `In`, `IsCheckOut` for `Out`). */
  predicate IsCheck(e: Option<Config.Entity>, d: Dir) {
    if d.In? then Config.IsCheckIn(e) else Config.IsCheckOut(e)
  }

  /** The edge test of side `d` (`ShouldInPass` for `In`, `ShouldOutPass` for `Out`). */
  predicate Passes(e: Option<Config.Entity>, g: Nodes, rx: Regex, d: Dir, x: Edge) {
    if d.In? then Config.ShouldInPass(e, g, x, rx) else Config.ShouldOutPass(e, g, x, rx)
  }

  /** `a` is a node of the graph that passes the entity's name and signature checks. */
  predicate SaneAt(e: Option<Config.Entity>, g: Nodes, rx: Regex, a: string) {
    a in g && Config.ShouldNodeSanityPass(e, g[a], rx)
  }

  /** The nodes of the graph that pass `ShouldNodePass`. */
  function NodeSetOf(e: Option<Config.Entity>, g: Nodes, rx: Regex): set<string> {
    set k | k in g && Config.ShouldNodePass(e, g, g[k], rx)
  }

  /**
   * The far ends of `v`'s edges on side `hold` that pass the test of side
   * `test` (and, when `sane`, whose far end passes the sanity checks).
   */
  function ImageOne(e: Option<Config.Entity>, g: Nodes, rx: Regex, v: string, hold: Dir, test: Dir, sane: bool): set<string> {
    set x | x in Edges(g, v, hold) && Passes(e, g, rx, test, x) && (sane ==> SaneAt(e, g, rx, x.Far(hold))) :: x.Far(hold)
  }

  /** `ImageOne` over every node of `s`. */
  function Image(e: Option<Config.Entity>, g: Nodes, rx: Regex, s: set<string>, hold: Dir, test: Dir, sane: bool): set<string> {
    set v, w | v in s && w in ImageOne(e, g, rx, v, hold, test, sane) :: w
  }

  /** Side `d` of an entity's neighbourhood, as `UpdateInNodeSetWithNodeSet`/`UpdateOutNodeSetWithNodeSet` compute it from `s`. */
  function SideOf(e: Option<Config.Entity>, g: Nodes, rx: Regex, s: set<string>, d: Dir): set<string> {
    Image(e, g, rx, s, d, d, false)
  }

  /** The nodes re-derived from side `d` by `UpdateNodeSetWithInNodeSet`/`UpdateNodeSetWithOutNodeSet`. */
  function NodesFromSide(e: Option<Config.Entity>, g: Nodes, rx: Regex, s: set<string>, d: Dir): set<string> {
    Image(e, g, rx, s, d.Flip(), d, true)
  }

  /** Start node to end node to example path. */
  function MergePaths(a: Paths, b: Paths): Paths {
    map k | k in a.Keys + b.Keys :: (if k in a then a[k] else map[]) + (if k in b then b[k] else map[])
  }

  /** The caches of an entity; `None` is a nil map. */
  datatype Cache = Cache(nodeSet: Option<set<string>>, inNodeSet: Option<set<string>>,
                         outNodeSet: Option<set<string>>, examplePath: Option<Paths>)
  {
    function Side(d: Dir): Option<set<string>> {
      if d.In? then inNodeSet else outNodeSet
    }

    function WithSide(d: Dir, s: set<string>): Cache {
      if d.In? then this.(inNodeSet := Some(s)) else this.(outNodeSet := Some(s))
    }

    /** `GetNodeSet`: the cached node set, or the nodes that pass, cached from now on. */
    function GetNodeSet(e: Option<Config.Entity>, g: Nodes, rx: Regex): (Cache, set<string>) {
      if nodeSet.Some? then (this, nodeSet.value)
      else
        var s := NodeSetOf(e, g, rx);
        (this.(nodeSet := Some(s)), s)
    }

    /** `TrimNodeSet`: the node set, filled if needed, intersected with `keep`. */
    function TrimNodeSet(e: Option<Config.Entity>, g: Nodes, rx: Regex, keep: set<string>): Cache {
      var (c, s) := GetNodeSet(e, g, rx);
      c.(nodeSet := Some(s * keep))
    }

    /** `UpdateInNodeSetWithNodeSet` (d == In) and `UpdateOutNodeSetWithNodeSet` (d == Out). */
    function UpdateSideWithNodeSet(e: Option<Config.Entity>, g: Nodes, rx: Regex, d: Dir): (Cache, set<string>) {
      if !IsCheck(e, d) then (this, {})
      else
        var (c, s) := GetNodeSet(e, g, rx);
        var side := SideOf(e, g, rx, s, d);
        (c.WithSide(d, side), side)
    }

    /** Side `d`, computed from the node set when it is still nil. */
    function FillSide(e: Option<Config.Entity>, g: Nodes, rx: Regex, d: Dir): (c: Cache)
      ensures IsCheck(e, d) ==> c.Side(d).Some?
    {
      if Side(d).None? then UpdateSideWithNodeSet(e, g, rx, d).0 else this
    }

    /** `UpdateNodeSetWithInNodeSet` (d == In) and `UpdateNodeSetWithOutNodeSet` (d == Out). */
    function UpdateNodeSetWithSide(e: Option<Config.Entity>, g: Nodes, rx: Regex, d: Dir): Cache {
      if !IsCheck(e, d) then GetNodeSet(e, g, rx).0
      else
        var c := FillSide(e, g, rx, d);
        c.(nodeSet := Some(NodesFromSide(e, g, rx, c.Side(d).value, d)))
    }

    /** `TrimInNodeSet` (d == In) and `TrimOutNodeSet` (d == Out). */
    function TrimSide(e: Option<Config.Entity>, g: Nodes, rx: Regex, d: Dir, keep: set<string>): Cache {
      if !IsCheck(e, d) then TrimNodeSet(e, g, rx, keep)
      else
        var c := FillSide(e, g, rx, d);
        c.WithSide(d, c.Side(d).value * keep).UpdateNodeSetWithSide(e, g, rx, d)
    }

    /** `GetInAllNodeSet` (d == In) and `GetOutAllNodeSet` (d == Out). */
    function GetAll(e: Option<Config.Entity>, g: Nodes, rx: Regex, d: Dir): (Cache, set<string>) {
      if !IsCheck(e, d) then GetNodeSet(e, g, rx)
      else
        var c := FillSide(e, g, rx, d);
        (c, c.Side(d).value)
    }

    /** `GetInAllNodeSetOnlyRead` (d == In) and `GetOutAllNodeSetOnlyRead` (d == Out): no filling. */
    function OnlyRead(e: Option<Config.Entity>, d: Dir): Option<set<string>> {
      if !IsCheck(e, d) then nodeSet else Side(d)
    }

    /** `AddExamplePath`: take `ep` when there are no paths yet, otherwise merge it in, `ep` winning. */
    function AddExamplePath(ep: Paths): Cache {
      if examplePath.None? then this.(examplePath := Some(ep))
      else this.(examplePath := Some(MergePaths(examplePath.value, ep)))
    }

    /**
     * One entity's step of the backward sweep of `findAllBipartite`: note the
     * read-only in set (nil reads as empty) and the node set, recompute the in
     * set from the node set, trim it back to the noted in set, then trim the
     * node set back to the noted one.
     */
    function Sweep(e: Option<Config.Entity>, g: Nodes, rx: Regex): Cache {
      var origIn := if OnlyRead(e, In).Some? then OnlyRead(e, In).value else {};
      var (c1, origNode) := GetNodeSet(e, g, rx);
      var c2 := c1.UpdateSideWithNodeSet(e, g, rx, In).0;
      c2.TrimSide(e, g, rx, In, origIn).TrimNodeSet(e, g, rx, origNode)
    }

    /** The cache after `op`. */
    function Apply(op: Op, e: Option<Config.Entity>, g: Nodes, rx: Regex): Cache {
      match op
      case TrimOp(d, keep) => TrimSide(e, g, rx, d, keep)
      case RefreshOp(d) => UpdateSideWithNodeSet(e, g, rx, d).0
      case SweepOp => Sweep(e, g, rx)
      case ResetOp => Cleared
    }
  }

  /**
   * The entity operations the flow applies to every entity of a layer:
   * `TrimInNodeSet`/`TrimOutNodeSet`, `UpdateInNodeSetWithNodeSet`/
   * `UpdateOutNodeSetWithNodeSet`, the backward-sweep step and `ResetEntityData`.
   */
  datatype Op = TrimOp(d: Dir, keep: set<string>) | RefreshOp(d: Dir) | SweepOp | ResetOp

  /** Every cache nil: what `ResetEntityData` leaves. */
  const Cleared := Cache(None, None, None, None)

  /** A node that passes `ShouldNodePass` passes the sanity checks. */
  lemma NodePassIsSane(e: Option<Config.Entity>, g: Nodes, rx: Regex, k: string)
    requires k in NodeSetOf(e, g, rx)
    ensures SaneAt(e, g, rx, k)
  {
    Config.ShouldNodePassSplits(e, g, g[k], rx);
  }

  /**
   * `GetNodeSet` is memoised: the first call caches the nodes that pass, and
   * every later call returns the cached set and changes nothing.
   */
  lemma GetNodeSetMemo(c: Cache, e: Option<Config.Entity>, g: Nodes, rx: Regex)
    ensures c.nodeSet.None? ==> c.GetNodeSet(e, g, rx).1 == NodeSetOf(e, g, rx)
    ensures c.nodeSet.Some? ==> c.GetNodeSet(e, g, rx) == (c, c.nodeSet.value)
    ensures var (c1, s) := c.GetNodeSet(e, g, rx); c1.GetNodeSet(e, g, rx) == (c1, s)
  {
  }

  /** `TrimNodeSet` never grows the node set: it keeps exactly the members also in `keep`. */
  lemma TrimNodeSetShrinks(c: Cache, e: Option<Config.Entity>, g: Nodes, rx: Regex, keep: set<string>)
    ensures var r := c.TrimNodeSet(e, g, rx, keep).nodeSet.value;
      && r <= keep && r <= c.GetNodeSet(e, g, rx).1
      && forall k :: k in r <==> k in c.GetNodeSet(e, g, rx).1 && k in keep
  {
  }

  /**
   * Trimming side `d` of an entity that checks it leaves exactly the filled
   * side's members also in `keep`, and rebuilds the node set from that side;
   * an entity that does not check side `d` keeps that side and trims its node
   * set to `keep`.
   */
  lemma TrimSideSpec(c: Cache, e: Option<Config.Entity>, g: Nodes, rx: Regex, d: Dir, keep: set<string>)
    ensures IsCheck(e, d) ==>
      var r := c.TrimSide(e, g, rx, d, keep);
      && r.Side(d) == Some(c.FillSide(e, g, rx, d).Side(d).value * keep)
      && r.nodeSet == Some(NodesFromSide(e, g, rx, r.Side(d).value, d))
    ensures !IsCheck(e, d) ==>
      var r := c.TrimSide(e, g, rx, d, keep);
      r.Side(d) == c.Side(d) && r.nodeSet == Some(c.GetNodeSet(e, g, rx).1 * keep)
  {
    if IsCheck(e, d) {
      var c1 := c.FillSide(e, g, rx, d);
      var c2 := c1.WithSide(d, c1.Side(d).value * keep);
      assert c2.Side(d) == Some(c1.Side(d).value * keep);
      assert c2.FillSide(e, g, rx, d) == c2;
    }
  }

  /** An entity that does not check side `d` computes an empty side and keeps its caches. */
  lemma UncheckedSideIsEmpty(c: Cache, e: Option<Config.Entity>, g: Nodes, rx: Regex, d: Dir)
    requires !IsCheck(e, d)
    ensures c.UpdateSideWithNodeSet(e, g, rx, d) == (c, {})
    ensures c.GetAll(e, g, rx, d) == c.GetNodeSet(e, g, rx)
  {
  }

  /**
   * `GetInAllNodeSet`/`GetOutAllNodeSet` are memoised too, and afterwards the
   * read-only getters see exactly what they returned.
   */
  lemma GetAllMemo(c: Cache, e: Option<Config.Entity>, g: Nodes, rx: Regex, d: Dir)
    ensures var (c1, s) := c.GetAll(e, g, rx, d);
      && c1.GetAll(e, g, rx, d) == (c1, s)
      && c1.OnlyRead(e, d) == Some(s)
  {
    var (c1, s) := c.GetAll(e, g, rx, d);
    if IsCheck(e, d) {
      assert c1.Side(d) == Some(s);
    }
  }

  /**
   * Caches only ever filled from the graph, never trimmed: the node set, when
   * present, is the nodes that pass, and a side, when present, is computed
   * from them. Cleared caches are such, and filling keeps them such.
   */
  ghost predicate Untrimmed(c: Cache, e: Option<Config.Entity>, g: Nodes, rx: Regex) {
    && (c.nodeSet.Some? ==> c.nodeSet.value == NodeSetOf(e, g, rx))
    && (c.inNodeSet.Some? ==> c.inNodeSet.value == SideOf(e, g, rx, NodeSetOf(e, g, rx), In))
    && (c.outNodeSet.Some? ==> c.outNodeSet.value == SideOf(e, g, rx, NodeSetOf(e, g, rx), Out))
  }

  /**
   * On untrimmed caches `GetInAllNodeSet`/`GetOutAllNodeSet` answer what they
   * answer on cleared caches, and leave the caches untrimmed.
   */
  lemma UntrimmedGetAll(c: Cache, e: Option<Config.Entity>, g: Nodes, rx: Regex, d: Dir)
    requires Untrimmed(c, e, g, rx)
    ensures c.GetAll(e, g, rx, d).1 == Cleared.GetAll(e, g, rx, d).1
    ensures Untrimmed(c.GetAll(e, g, rx, d).0, e, g, rx)
  {
    if IsCheck(e, d) && c.Side(d).None? {
      var (c1, s) := c.GetNodeSet(e, g, rx);
      assert s == NodeSetOf(e, g, rx);
      assert c.GetAll(e, g, rx, d).0 == c1.WithSide(d, SideOf(e, g, rx, s, d));
    }
  }

  /** Membership in `Image`, by a witness edge. */
  lemma ImageMember(e: Option<Config.Entity>, g: Nodes, rx: Regex, s: set<string>, hold: Dir, test: Dir, sane: bool, v: string, x: Edge)
    requires v in s && x in Edges(g, v, hold) && Passes(e, g, rx, test, x) && (sane ==> SaneAt(e, g, rx, x.Far(hold)))
    ensures x.Far(hold) in Image(e, g, rx, s, hold, test, sane)
  {
    assert x.Far(hold) in ImageOne(e, g, rx, v, hold, test, sane);
  }

  /**
   * In a well-formed graph the node set re-derived from a side holds exactly
   * the sane nodes with an edge on that side that passes and comes from (goes
   * to) a member of the side.
   */
  lemma NodesFromSideSpec(e: Option<Config.Entity>, g: Nodes, rx: Regex, s: set<string>, d: Dir, w: string)
    requires GraphOK(g)
    ensures w in NodesFromSide(e, g, rx, s, d) <==>
              SaneAt(e, g, rx, w) && exists x | x in g[w].List(d) :: x.Far(d) in s && Passes(e, g, rx, d, x)
  {
    if w in NodesFromSide(e, g, rx, s, d) {
      var v :| v in s && w in ImageOne(e, g, rx, v, d.Flip(), d, true);
      var x :| x in Edges(g, v, d.Flip()) && Passes(e, g, rx, d, x) && SaneAt(e, g, rx, x.Far(d.Flip())) && x.Far(d.Flip()) == w;
      GraphOKAt(g, v, d.Flip());
      assert x.Far(d) == v;
      assert x in g[w].List(d);
    }
    if SaneAt(e, g, rx, w) && exists x | x in g[w].List(d) :: x.Far(d) in s && Passes(e, g, rx, d, x) {
      var x :| x in g[w].List(d) && x.Far(d) in s && Passes(e, g, rx, d, x);
      GraphOKAt(g, w, d);
      assert x.Far(d.Flip()) == w;
      ImageMember(e, g, rx, s, d.Flip(), d, true, x.Far(d), x);
    }
  }

  /**
   * In a well-formed graph, re-deriving the node set from the side it computes
   * loses no matching node: every node that passes `ShouldNodePass` has a
   * passing edge on each side the entity checks, so it comes back.
   */
  lemma RederiveKeepsNodes(e: Option<Config.Entity>, g: Nodes, rx: Regex, d: Dir)
    requires GraphOK(g) && IsCheck(e, d)
    ensures NodeSetOf(e, g, rx) <= NodesFromSide(e, g, rx, SideOf(e, g, rx, NodeSetOf(e, g, rx), d), d)
  {
    var ns := NodeSetOf(e, g, rx);
    var side := SideOf(e, g, rx, ns, d);
    forall w | w in ns ensures w in NodesFromSide(e, g, rx, side, d) {
      Config.ShouldNodePassSplits(e, g, g[w], rx);
      var x :| x in g[w].List(d) && Passes(e, g, rx, d, x);
      GraphOKAt(g, w, d);
      assert x in Edges(g, w, d);
      ImageMember(e, g, rx, ns, d, d, false, w, x);
      NodesFromSideSpec(e, g, rx, side, d, w);
    }
  }

  /** Every node set an entity caches holds sane nodes only. */
  ghost predicate SaneCache(e: Option<Config.Entity>, g: Nodes, rx: Regex, c: Cache) {
    c.nodeSet.Some? ==> forall k | k in c.nodeSet.value :: SaneAt(e, g, rx, k)
  }

  lemma NodesFromSideSane(e: Option<Config.Entity>, g: Nodes, rx: Regex, s: set<string>, d: Dir)
    ensures forall k | k in NodesFromSide(e, g, rx, s, d) :: SaneAt(e, g, rx, k)
  {
    forall k | k in NodesFromSide(e, g, rx, s, d) ensures SaneAt(e, g, rx, k) {
      var v :| v in s && k in ImageOne(e, g, rx, v, d.Flip(), d, true);
    }
  }

  lemma GetNodeSetSane(c: Cache, e: Option<Config.Entity>, g: Nodes, rx: Regex)
    requires SaneCache(e, g, rx, c)
    ensures SaneCache(e, g, rx, c.GetNodeSet(e, g, rx).0)
    ensures forall k | k in c.GetNodeSet(e, g, rx).1 :: SaneAt(e, g, rx, k)
  {
    forall k | k in NodeSetOf(e, g, rx) ensures SaneAt(e, g, rx, k) {
      NodePassIsSane(e, g, rx, k);
    }
  }

  /**
   * Every operation keeps the cached node set sane: the nodes that pass, their
   * subsets and the re-derived sets all pass the sanity checks.
   */
  lemma OperationsKeepSane(c: Cache, e: Option<Config.Entity>, g: Nodes, rx: Regex, d: Dir, keep: set<string>, ep: Paths)
    requires SaneCache(e, g, rx, c)
    ensures SaneCache(e, g, rx, c.TrimNodeSet(e, g, rx, keep))
    ensures SaneCache(e, g, rx, c.UpdateSideWithNodeSet(e, g, rx, d).0)
    ensures SaneCache(e, g, rx, c.UpdateNodeSetWithSide(e, g, rx, d))
    ensures SaneCache(e, g, rx, c.TrimSide(e, g, rx, d, keep))
    ensures SaneCache(e, g, rx, c.GetAll(e, g, rx, d).0)
    ensures SaneCache(e, g, rx, c.AddExamplePath(ep))
    ensures SaneCache(e, g, rx, Cleared)
  {
    GetNodeSetSane(c, e, g, rx);
    if IsCheck(e, d) {
      var c1 := c.FillSide(e, g, rx, d);
      assert SaneCache(e, g, rx, c1);
      NodesFromSideSane(e, g, rx, c1.Side(d).value, d);
      NodesFromSideSane(e, g, rx, c1.Side(d).value * keep, d);
      assert c1.WithSide(d, c1.Side(d).value * keep).FillSide(e, g, rx, d) == c1.WithSide(d, c1.Side(d).value * keep);
    }
  }

  /** Merging example paths: the start keys of both, and for each start the union of the end maps, `b` winning. */
  lemma MergePathsSpec(a: Paths, b: Paths)
    ensures MergePaths(a, b).Keys == a.Keys + b.Keys
    ensures forall k, t | k in MergePaths(a, b) ::
              t in MergePaths(a, b)[k] <==> (k in a && t in a[k]) || (k in b && t in b[k])
    ensures forall k, t | k in b && t in b[k] :: MergePaths(a, b)[k][t] == b[k][t]
    ensures forall k, t | k in a && t in a[k] && !(k in b && t in b[k]) :: MergePaths(a, b)[k][t] == a[k][t]
  {
  }

  /**
   * The backward sweep never grows an entity's node set, and leaves the in
   * set of an entity that checks incoming edges within the in set it had.
   */
  lemma SweepShrinks(c: Cache, e: Option<Config.Entity>, g: Nodes, rx: Regex)
    ensures c.Sweep(e, g, rx).nodeSet.Some?
    ensures c.Sweep(e, g, rx).nodeSet.value <= c.GetNodeSet(e, g, rx).1
    ensures Config.IsCheckIn(e) ==>
              && c.Sweep(e, g, rx).inNodeSet.Some?
              && c.Sweep(e, g, rx).inNodeSet.value <= (if c.inNodeSet.Some? then c.inNodeSet.value else {})
  {
    var origIn := if c.OnlyRead(e, In).Some? then c.OnlyRead(e, In).value else {};
    var (c1, origNode) := c.GetNodeSet(e, g, rx);
    var c2 := c1.UpdateSideWithNodeSet(e, g, rx, In).0;
    var c3 := c2.TrimSide(e, g, rx, In, origIn);
    TrimNodeSetShrinks(c3, e, g, rx, origNode);
    if Config.IsCheckIn(e) {
      TrimSideSpec(c2, e, g, rx, In, origIn);
      assert c3.TrimNodeSet(e, g, rx, origNode).inNodeSet == c3.GetNodeSet(e, g, rx).0.inNodeSet;
    }
  }

  /** The loop of `TrimNodeSet`: delete every member that `keep` lacks. */
  method Intersect(s: set<string>, keep: set<string>) returns (r: set<string>)
    ensures r == s * keep
  {
    r := s;
    var todo := s;
    while todo != {}
      invariant todo <= s
      invariant r == (s * keep) + todo
      decreases todo
    {
      var n :| n in todo;
      if n !in keep {
        r := r - {n};
      }
      todo := todo - {n};
    }
  }

  /** The loop of `GetNodeSet`: every node of the graph that passes. */
  method CollectNodeSet(e: Option<Config.Entity>, g: Nodes, rx: Regex) returns (r: set<string>)
    ensures r == NodeSetOf(e, g, rx)
  {
    r := {};
    var todo := g.Keys;
    while todo != {}
      invariant todo <= g.Keys
      invariant forall k :: k in r <==> k in g && k !in todo && Config.ShouldNodePass(e, g, g[k], rx)
      decreases todo
    {
      var k :| k in todo;
      if Config.ShouldNodePass(e, g, g[k], rx) {
        r := r + {k};
      }
      todo := todo - {k};
    }
  }

  /** The inner loop of the update methods: scan one node's edges on side `hold`. */
  method CollectOne(e: Option<Config.Entity>, g: Nodes, rx: Regex, v: string, hold: Dir, test: Dir, sane: bool)
    returns (r: set<string>)
    ensures r == ImageOne(e, g, rx, v, hold, test, sane)
  {
    var es := Edges(g, v, hold);
    r := {};
    var i := 0;
    while i < |es|
      invariant 0 <= i <= |es|
      invariant r == set x | x in es[..i] && Passes(e, g, rx, test, x) && (sane ==> SaneAt(e, g, rx, x.Far(hold))) :: x.Far(hold)
    {
      var x := es[i];
      assert es[..i + 1] == es[..i] + [x];
      if Passes(e, g, rx, test, x) && (sane ==> x.Far(hold) in g && Config.ShouldNodeSanityPass(e, g[x.Far(hold)], rx)) {
        r := r + {x.Far(hold)};
      }
      i := i + 1;
    }
    assert es[..|es|] == es;
  }

  lemma ImageAdd(e: Option<Config.Entity>, g: Nodes, rx: Regex, a: set<string>, v: string, hold: Dir, test: Dir, sane: bool)
    ensures Image(e, g, rx, a + {v}, hold, test, sane) == Image(e, g, rx, a, hold, test, sane) + ImageOne(e, g, rx, v, hold, test, sane)
  {
  }

  /** The outer loop of the update methods: the image of every node of `s`. */
  method CollectImage(e: Option<Config.Entity>, g: Nodes, rx: Regex, s: set<string>, hold: Dir, test: Dir, sane: bool)
    returns (r: set<string>)
    ensures r == Image(e, g, rx, s, hold, test, sane)
  {
    r := {};
    var todo := s;
    while todo != {}
      invariant todo <= s
      invariant r == Image(e, g, rx, s - todo, hold, test, sane)
      decreases todo
    {
      var v :| v in todo;
      var one := CollectOne(e, g, rx, v, hold, test, sane);
      ImageAdd(e, g, rx, s - todo, v, hold, test, sane);
      assert s - (todo - {v}) == (s - todo) + {v};
      r := r + one;
      todo := todo - {v};
    }
  }

  /** The loop of `AddExamplePath` and of `Layer.GetExamplePath`: merge `b` into `a`, one start at a time. */
  method MergeInto(a: Paths, b: Paths) returns (r: Paths)
    ensures r == MergePaths(a, b)
  {
    r := a;
    var todo := b.Keys;
    while todo != {}
      invariant todo <= b.Keys
      invariant r.Keys == a.Keys + (b.Keys - todo)
      invariant forall k | k in r :: r[k] == (if k in a then a[k] else map[]) + (if k in b && k !in todo then b[k] else map[])
      decreases todo
    {
      var k :| k in todo;
      r := r[k := (if k in r then r[k] else map[]) + b[k]];
      todo := todo - {k};
    }
  }

  class Entity {
    const conf: Option<Config.Entity>
    var nodeSet: Option<set<string>>
    var inNodeSet: Option<set<string>>
    var outNodeSet: Option<set<string>>
    var examplePath: Option<Paths>

    /** The caches as one value. */
    function Data(): Cache
      reads this
    {
      Cache(nodeSet, inNodeSet, outNodeSet, examplePath)
    }

    /** A new entity of a configured pattern set, every cache nil. */
    constructor (conf: Option<Config.Entity>)
      ensures this.conf == conf && Data() == Cleared
    {
      this.conf := conf;
      nodeSet, inNodeSet, outNodeSet, examplePath := None, None, None, None;
    }

    method SetData(c: Cache)
      modifies this
      ensures Data() == c
    {
      nodeSet, inNodeSet, outNodeSet, examplePath := c.nodeSet, c.inNodeSet, c.outNodeSet, c.examplePath;
    }

    /** `GetNodeSet`: the cached set, or the nodes that pass, cached. */
    method GetNodeSet(g: Nodes, rx: Regex) returns (r: set<string>)
      modifies this
      ensures (Data(), r) == old(Data()).GetNodeSet(conf, g, rx)
    {
      if nodeSet.Some? {
        return nodeSet.value;
      }
      r := CollectNodeSet(conf, g, rx);
      nodeSet := Some(r);
    }

    /** `TrimNodeSet`: delete from the node set every node `keep` lacks. */
    method TrimNodeSet(keep: set<string>, g: Nodes, rx: Regex)
      modifies this
      ensures Data() == old(Data()).TrimNodeSet(conf, g, rx, keep)
    {
      var s := GetNodeSet(g, rx);
      var t := Intersect(s, keep);
      nodeSet := Some(t);
    }

    /** `UpdateInNodeSetWithNodeSet` (d == In) and `UpdateOutNodeSetWithNodeSet` (d == Out). */
    method UpdateSideWithNodeSet(d: Dir, g: Nodes, rx: Regex) returns (r: set<string>)
      modifies this
      ensures (Data(), r) == old(Data()).UpdateSideWithNodeSet(conf, g, rx, d)
    {
      if !IsCheck(conf, d) {
        return {};
      }
      var s := GetNodeSet(g, rx);
      r := CollectImage(conf, g, rx, s, d, d, false);
      if d.In? {
        inNodeSet := Some(r);
      } else {
        outNodeSet := Some(r);
      }
    }

    /** `UpdateNodeSetWithInNodeSet` (d == In) and `UpdateNodeSetWithOutNodeSet` (d == Out). */
    method UpdateNodeSetWithSide(d: Dir, g: Nodes, rx: Regex)
      modifies this
      ensures Data() == old(Data()).UpdateNodeSetWithSide(conf, g, rx, d)
    {
      if !IsCheck(conf, d) {
        var _ := GetNodeSet(g, rx);
        return;
      }
      if Data().Side(d).None? {
        var _ := UpdateSideWithNodeSet(d, g, rx);
      }
      var side := Data().Side(d).value;
      var s := CollectImage(conf, g, rx, side, d.Flip(), d, true);
      nodeSet := Some(s);
    }

    /** `TrimInNodeSet` (d == In) and `TrimOutNodeSet` (d == Out). */
    method TrimSide(d: Dir, keep: set<string>, g: Nodes, rx: Regex)
      modifies this
      ensures Data() == old(Data()).TrimSide(conf, g, rx, d, keep)
    {
      if !IsCheck(conf, d) {
        TrimNodeSet(keep, g, rx);
        return;
      }
      if Data().Side(d).None? {
        var _ := UpdateSideWithNodeSet(d, g, rx);
      }
      ghost var c1 := Data();
      var t := Intersect(Data().Side(d).value, keep);
      if d.In? {
        inNodeSet := Some(t);
      } else {
        outNodeSet := Some(t);
      }
      assert Data() == c1.WithSide(d, t);
      UpdateNodeSetWithSide(d, g, rx);
    }

    /** `GetInAllNodeSet` (d == In) and `GetOutAllNodeSet` (d == Out). */
    method GetAllNodeSet(d: Dir, g: Nodes, rx: Regex) returns (r: set<string>)
      modifies this
      ensures (Data(), r) == old(Data()).GetAll(conf, g, rx, d)
    {
      if !IsCheck(conf, d) {
        r := GetNodeSet(g, rx);
        return;
      }
      if Data().Side(d).None? {
        var _ := UpdateSideWithNodeSet(d, g, rx);
      }
      r := Data().Side(d).value;
    }

    /** `ResetEntityData`: every cache back to nil. */
    method ResetEntityData()
      modifies this
      ensures Data() == Cleared
    {
      nodeSet, inNodeSet, outNodeSet, examplePath := None, None, None, None;
    }

    /** One entity's step of the backward sweep of `findAllBipartite`. */
    method Sweep(g: Nodes, rx: Regex)
      modifies this
      ensures Data() == old(Data()).Sweep(conf, g, rx)
    {
      var origIn := if Data().OnlyRead(conf, In).Some? then Data().OnlyRead(conf, In).value else {};
      var origNode := GetNodeSet(g, rx);
      var _ := UpdateSideWithNodeSet(In, g, rx);
      TrimSide(In, origIn, g, rx);
      TrimNodeSet(origNode, g, rx);
    }

    /** Run `op` on this entity. */
    method Apply(op: Op, g: Nodes, rx: Regex)
      modifies this
      ensures Data() == old(Data()).Apply(op, conf, g, rx)
    {
      match op
      case TrimOp(d, keep) => TrimSide(d, keep, g, rx);
      case RefreshOp(d) => var _ := UpdateSideWithNodeSet(d, g, rx);
      case SweepOp => Sweep(g, rx);
      case ResetOp => ResetEntityData();
    }

    /** `AddExamplePath`: take `ep` as the paths, or merge it into the present ones. */
    method AddExamplePath(ep: Paths)
      modifies this
      ensures Data() == old(Data()).AddExamplePath(ep)
    {
      if examplePath.None? {
        examplePath := Some(ep);
        return;
      }
      var m := MergeInto(examplePath.value, ep);
      examplePath := Some(m);
    }
  }
}

/**
 * The lexical-scope check on an example path (`checkCallEdgeChain`): the path
 * is flattened into the chain of functions it passes through, and every
 * function after the first must be nested in the first function's parent or
 * in a function met earlier on the chain.
 */
module Chains {
  import opened Wrappers
  import opened IR

  /** The function of the node at `addr`, none when there is no such node (the nil-safe `Caller.Func`). */
  function FuncAt(g: Nodes, addr: string): Option<Func> {
    if addr in g then Some(g[addr].func) else None
  }

  /**
   * One edge's contribution to the chain: its caller, then its callee, each
   * unless it is the function that was last on the chain before this edge.
   */
  function ChainStep(g: Nodes, c: seq<Func>, e: Edge): seq<Func> {
    var last := if c == [] then None else Some(c[|c| - 1]);
    var caller := FuncAt(g, e.caller);
    var callee := FuncAt(g, e.callee);
    var c1 := if caller.Some? && caller != last then c + [caller.value] else c;
    if callee.Some? && callee != last then c1 + [callee.value] else c1
  }

  /** The function chain of a path, built edge by edge from the front. */
  function FuncChain(g: Nodes, path: seq<Edge>): seq<Func>
    decreases |path|
  {
    if path == [] then [] else ChainStep(g, FuncChain(g, path[..|path| - 1]), path[|path| - 1])
  }

  /** `f` is the function at one endpoint of some edge of `path`. */
  predicate OnPath(g: Nodes, path: seq<Edge>, f: Func) {
    exists i | 0 <= i < |path| :: FuncAt(g, path[i].caller) == Some(f) || FuncAt(g, path[i].callee) == Some(f)
  }

  lemma OnPathPrefix(g: Nodes, path: seq<Edge>, n: nat, f: Func)
    requires n <= |path| && OnPath(g, path[..n], f)
    ensures OnPath(g, path, f)
  {
    var i :| 0 <= i < n && (FuncAt(g, path[..n][i].caller) == Some(f) || FuncAt(g, path[..n][i].callee) == Some(f));
    assert path[..n][i] == path[i];
  }

  /**
   * The chain holds exactly the functions at the endpoints of the path's
   * edges: an endpoint left out is the function already last on the chain.
   */
  lemma {:induction false} ChainMembers(g: Nodes, path: seq<Edge>)
    ensures forall f :: f in FuncChain(g, path) <==> OnPath(g, path, f)
    ensures |FuncChain(g, path)| <= 2 * |path|
    decreases |path|
  {
    if path != [] {
      var n := |path| - 1;
      var p := path[..n];
      var e := path[n];
      var c := FuncChain(g, p);
      ChainMembers(g, p);
      assert FuncChain(g, path) == ChainStep(g, c, e);
      forall f ensures f in FuncChain(g, path) <==> OnPath(g, path, f) {
        if f in FuncChain(g, path) {
          if f in c {
            OnPathPrefix(g, path, n, f);
          } else {
            assert FuncAt(g, path[n].caller) == Some(f) || FuncAt(g, path[n].callee) == Some(f);
          }
        }
        if OnPath(g, path, f) {
          var i :| 0 <= i < |path| && (FuncAt(g, path[i].caller) == Some(f) || FuncAt(g, path[i].callee) == Some(f));
          if i < n {
            assert p[i] == path[i];
            assert OnPath(g, p, f);
          } else {
            assert c != [] ==> c[|c| - 1] in c;
          }
        }
      }
    }
  }

  /** In a well-formed graph every function on the chain is the function of a node, keyed by its own Addr. */
  lemma ChainInGraph(g: Nodes, path: seq<Edge>, f: Func)
    requires GraphOK(g) && f in FuncChain(g, path)
    ensures f.addr in g && g[f.addr].func == f
  {
    ChainMembers(g, path);
    var i :| 0 <= i < |path| && (FuncAt(g, path[i].caller) == Some(f) || FuncAt(g, path[i].callee) == Some(f));
  }

  /**
   * The Addrs `fChainMap` holds when the check reaches position `i`: the first
   * function's parent, and every function before position `i`.
   */
  predicate Known(c: seq<Func>, i: nat, a: string)
    requires i <= |c|
  {
    || (i > 0 && c[0].parent.Some? && a == c[0].parent.value.addr)
    || exists m | 0 <= m < i :: c[m].addr == a
  }

  /** The function at position `i` has no parent, or a parent already known. */
  predicate ParentOK(c: seq<Func>, i: nat)
    requires 0 < i < |c|
  {
    c[i].parent.None? || Known(c, i, c[i].parent.value.addr)
  }

  /** The first loop of `checkCallEdgeChain`: the function chain of `path`. */
  method BuildChain(g: Nodes, path: seq<Edge>) returns (chain: seq<Func>)
    ensures chain == FuncChain(g, path)
  {
    chain := [];
    var i := 0;
    while i < |path|
      invariant 0 <= i <= |path|
      invariant chain == FuncChain(g, path[..i])
    {
      var last: Option<Func> := if |chain| > 0 then Some(chain[|chain| - 1]) else None;
      var e := path[i];
      if e.caller in g && Some(g[e.caller].func) != last {
        chain := chain + [g[e.caller].func];
      }
      if e.callee in g && Some(g[e.callee].func) != last {
        chain := chain + [g[e.callee].func];
      }
      assert path[..i + 1][..i] == path[..i];
      i := i + 1;
    }
    assert path[..|path|] == path;
  }

  /**
   * The second loop of `checkCallEdgeChain`: walk the chain with the set of
   * known Addrs; stop at the first function whose parent is unknown, naming
   * the function before it.
   */
  method CheckParents(chain: seq<Func>) returns (ok: bool, issue: Option<Func>)
    ensures ok <==> forall i | 0 < i < |chain| :: ParentOK(chain, i)
    ensures ok ==> issue.None?
    ensures !ok ==> exists i | 0 < i < |chain| ::
                      && !ParentOK(chain, i)
                      && (forall j | 0 < j < i :: ParentOK(chain, j))
                      && issue == Some(chain[i - 1])
  {
    var known: set<string> := {};
    var j := 0;
    while j < |chain|
      invariant 0 <= j <= |chain|
      invariant forall a :: a in known <==> Known(chain, j, a)
      invariant forall m | 0 < m < j :: ParentOK(chain, m)
    {
      if chain[j].parent.Some? && chain[j].parent.value.addr !in known {
        if j == 0 {
          known := known + {chain[j].parent.value.addr};
        } else {
          assert !ParentOK(chain, j);
          return false, Some(chain[j - 1]);
        }
      }
      known := known + {chain[j].addr};
      j := j + 1;
    }
    return true, None;
  }

  /**
   * `checkCallEdgeChain`: `(false, nil)` for an empty path; otherwise pass iff
   * every function after the first has its parent known, and on the first
   * failure at position `i` report the function just before it.
   */
  method CheckCallEdgeChain(g: Nodes, path: seq<Edge>) returns (ok: bool, issue: Option<Func>)
    ensures path == [] ==> !ok && issue.None?
    ensures ok ==> issue.None?
    ensures path != [] ==> (ok <==> forall i | 0 < i < |FuncChain(g, path)| :: ParentOK(FuncChain(g, path), i))
    ensures path != [] && !ok ==>
              exists i | 0 < i < |FuncChain(g, path)| ::
                && !ParentOK(FuncChain(g, path), i)
                && (forall j | 0 < j < i :: ParentOK(FuncChain(g, path), j))
                && issue == Some(FuncChain(g, path)[i - 1])
  {
    if |path| == 0 {
      return false, None;
    }
    var chain := BuildChain(g, path);
    ok, issue := CheckParents(chain);
  }

  /** In a well-formed graph a reported function is a node of the graph, keyed by its Addr. */
  lemma IssueInGraph(g: Nodes, path: seq<Edge>, i: nat)
    requires GraphOK(g) && 0 < i < |FuncChain(g, path)|
    ensures FuncChain(g, path)[i - 1].addr in g
  {
    ChainInGraph(g, path, FuncChain(g, path)[i - 1]);
  }
}

/**
 * A flow layer: its entities, in configuration order, and the layer-level
 * caches (`NodeSet`, unused by the flow, and `ExamplePath`). The layer-wide
 * operations run an entity operation on every entity, or take the union of
 * what the entities answer.
 */
module Layers {
  import opened Wrappers
  import opened IR
  import opened Modes
  import opened Search
  import opened Entities
  import Config

  /** The entities' example paths merged in order, a later entity's path winning (`GetExamplePath`). */
  function MergeAll(ps: seq<Option<Paths>>): Paths
    decreases |ps|
  {
    if ps == [] then map[]
    else
      var acc := MergeAll(ps[..|ps| - 1]);
      var last := ps[|ps| - 1];
      if last.None? then acc else MergePaths(acc, last.value)
  }

  /** Entity `i` records a path from `s` to `t`. */
  predicate Holds(ps: seq<Option<Paths>>, i: int, s: string, t: string) {
    0 <= i < |ps| && ps[i].Some? && s in ps[i].value && t in ps[i].value[s]
  }

  /** The merged map holds a start iff some entity does. */
  lemma {:induction false} MergeAllKeys(ps: seq<Option<Paths>>)
    ensures forall s :: s in MergeAll(ps) <==> exists i | 0 <= i < |ps| :: ps[i].Some? && s in ps[i].value
    decreases |ps|
  {
    if ps != [] {
      var n := |ps| - 1;
      var pre := ps[..n];
      MergeAllKeys(pre);
      forall s ensures s in MergeAll(ps) <==> exists i | 0 <= i < |ps| :: ps[i].Some? && s in ps[i].value {
        if s in MergeAll(ps) && s !in MergeAll(pre) {
          assert ps[n].Some? && s in ps[n].value;
        }
        if s in MergeAll(pre) {
          var i :| 0 <= i < n && pre[i].Some? && s in pre[i].value;
          assert ps[i] == pre[i];
        }
        if exists i | 0 <= i < |ps| :: ps[i].Some? && s in ps[i].value {
          var i :| 0 <= i < |ps| && ps[i].Some? && s in ps[i].value;
          if i < n {
            assert pre[i].Some? && s in pre[i].value;
          }
        }
      }
    }
  }

  /** One step of the fold, for one pair: the last entity's path wins, otherwise the pair stays as it was. */
  lemma MergeAllStep(ps: seq<Option<Paths>>, s: string, t: string)
    requires ps != []
    ensures var acc, m := MergeAll(ps[..|ps| - 1]), MergeAll(ps);
            && ((s in m && t in m[s]) <==> (s in acc && t in acc[s]) || Holds(ps, |ps| - 1, s, t))
            && (Holds(ps, |ps| - 1, s, t) ==> m[s][t] == ps[|ps| - 1].value[s][t])
            && (!Holds(ps, |ps| - 1, s, t) && s in acc && t in acc[s] ==> m[s][t] == acc[s][t])
  {
    var last := ps[|ps| - 1];
    if last.Some? {
      MergePathsSpec(MergeAll(ps[..|ps| - 1]), last.value);
    }
  }

  /** A pair is merged iff some entity holds it, and its path is the one of the last entity holding it. */
  lemma {:induction false} MergeAllPairs(ps: seq<Option<Paths>>, s: string, t: string)
    ensures (s in MergeAll(ps) && t in MergeAll(ps)[s]) <==> exists i :: Holds(ps, i, s, t)
    ensures s in MergeAll(ps) && t in MergeAll(ps)[s] ==>
              exists i :: Holds(ps, i, s, t) && MergeAll(ps)[s][t] == ps[i].value[s][t]
                          && forall j | i < j < |ps| :: !Holds(ps, j, s, t)
    decreases |ps|
  {
    if ps != [] {
      var n := |ps| - 1;
      var pre := ps[..n];
      MergeAllPairs(pre, s, t);
      MergeAllStep(ps, s, t);
      var acc := MergeAll(pre);
      var m := MergeAll(ps);
      assert forall i | 0 <= i < n :: Holds(pre, i, s, t) == Holds(ps, i, s, t);
      if Holds(ps, n, s, t) {
        assert m[s][t] == ps[n].value[s][t];
        assert forall j | n < j < |ps| :: !Holds(ps, j, s, t);
      } else if s in acc && t in acc[s] {
        var i :| Holds(pre, i, s, t) && acc[s][t] == pre[i].value[s][t]
                 && forall j | i < j < |pre| :: !Holds(pre, j, s, t);
        assert Holds(ps, i, s, t) && m[s][t] == ps[i].value[s][t];
        forall j | i < j < |ps| ensures !Holds(ps, j, s, t) {
          if j < n {
            assert !Holds(pre, j, s, t);
          }
        }
      } else {
        forall i ensures !Holds(ps, i, s, t) {
          if 0 <= i < n {
            assert !Holds(pre, i, s, t);
          }
        }
      }
    }
  }

  /** One row of example paths reduced to the ends in `keep`. */
  function KeptEnds(row: PathMap, keep: set<string>): PathMap {
    map t | t in row && t in keep :: row[t]
  }

  /** Example paths reduced to the ends in `keep`; a start left with no end is dropped (the filter of the backward sweep). */
  function FilterEnds(ep: Paths, keep: set<string>): Paths {
    map s | s in ep && KeptEnds(ep[s], keep) != map[] :: KeptEnds(ep[s], keep)
  }

  /**
   * The filter keeps exactly the pairs whose end is in `keep`, with their
   * paths, and leaves no start without an end.
   */
  lemma FilterEndsSpec(ep: Paths, keep: set<string>)
    ensures FilterEnds(ep, keep).Keys <= ep.Keys
    ensures forall s | s in FilterEnds(ep, keep) :: FilterEnds(ep, keep)[s] != map[]
    ensures forall s, t | s in FilterEnds(ep, keep) && t in FilterEnds(ep, keep)[s] ::
              t in keep && t in ep[s] && FilterEnds(ep, keep)[s][t] == ep[s][t]
    ensures forall s, t | s in ep && t in ep[s] && t in keep :: s in FilterEnds(ep, keep) && t in FilterEnds(ep, keep)[s]
  {
    forall s, t | s in ep && t in ep[s] && t in keep
      ensures s in FilterEnds(ep, keep) && t in FilterEnds(ep, keep)[s]
    {
      assert t in KeptEnds(ep[s], keep);
    }
  }

  /** The caches `cs` of entities `es` after `op` on each. */
  function ApplyEach(cs: seq<Cache>, es: seq<Option<Config.Entity>>, op: Op, g: Nodes, rx: Regex): seq<Cache>
    requires |cs| == |es|
  {
    seq(|cs|, j requires 0 <= j < |cs| => cs[j].Apply(op, es[j], g, rx))
  }

  /**
   * The caches `cs` of entities `es` after the trim of side `d` to `keep`
   * and then, when `refresh`, the refill of the other side from the trimmed
   * node set (the trims of the forward pass).
   */
  function TrimmedAll(cs: seq<Cache>, es: seq<Option<Config.Entity>>, g: Nodes, rx: Regex, d: Dir, keep: set<string>, refresh: bool): seq<Cache>
    requires |cs| == |es|
  {
    var t := ApplyEach(cs, es, TrimOp(d, keep), g, rx);
    if refresh then ApplyEach(t, es, RefreshOp(d.Flip()), g, rx) else t
  }

  /** `n` nil caches. */
  function ClearedAll(n: nat): seq<Cache> {
    seq(n, j => Cleared)
  }

  /**
   * The out nodes of a layer of entities `es` whose in caches, filled from
   * nil, were trimmed to `keep`: where the forward pass searches from after
   * the layer was the end of the previous search.
   */
  function OutAfterInTrim(es: seq<Option<Config.Entity>>, g: Nodes, rx: Regex, keep: set<string>): set<string> {
    var cs := TrimmedAll(FilledAll(ClearedAll(|es|), es, g, rx, In), es, g, rx, In, keep, false);
    AnswerOf(cs, es, g, rx, Out)
  }

  /** The filter of the backward sweep on a layer's example paths, nothing for nothing. */
  function FilterOpt(ep: Option<Paths>, keep: set<string>): Option<Paths> {
    if ep.None? then None else Some(FilterEnds(ep.value, keep))
  }

  /** The starts of a layer's example paths, none for nothing. */
  function KeysOf(ep: Option<Paths>): set<string> {
    if ep.Some? then ep.value.Keys else {}
  }

  /** The caches `cs` of entities `es` after `GetInAllNodeSet` (d == In) or `GetOutAllNodeSet` (d == Out) on each. */
  function FilledAll(cs: seq<Cache>, es: seq<Option<Config.Entity>>, g: Nodes, rx: Regex, d: Dir): seq<Cache>
    requires |cs| == |es|
  {
    seq(|cs|, j requires 0 <= j < |cs| => cs[j].GetAll(es[j], g, rx, d).0)
  }

  /** The union of what the entities answer to `GetInAllNodeSet`/`GetOutAllNodeSet` from caches `cs`. */
  function AnswerOf(cs: seq<Cache>, es: seq<Option<Config.Entity>>, g: Nodes, rx: Regex, d: Dir): set<string>
    requires |cs| == |es|
  {
    set j, k | 0 <= j < |cs| && k in cs[j].GetAll(es[j], g, rx, d).1 :: k
  }

  /** What the read-only getters of side `d` answer over caches `cs` of entities `es` (a nil answer counts as empty). */
  function OnlyReadOf(cs: seq<Cache>, es: seq<Option<Config.Entity>>, d: Dir): set<string>
    requires |cs| == |es|
  {
    set j, k | 0 <= j < |cs| && cs[j].OnlyRead(es[j], d).Some? && k in cs[j].OnlyRead(es[j], d).value :: k
  }

  /** The union of what the entities answer from cleared caches: their nodes on side `d` as the patterns select them. */
  function ClearedAnswer(es: seq<Option<Config.Entity>>, g: Nodes, rx: Regex, d: Dir): set<string> {
    set j, k | 0 <= j < |es| && k in Cleared.GetAll(es[j], g, rx, d).1 :: k
  }

  /** Every cache of `cs` is untrimmed. */
  ghost predicate AllUntrimmed(cs: seq<Cache>, es: seq<Option<Config.Entity>>, g: Nodes, rx: Regex) {
    |cs| == |es| && forall j | 0 <= j < |cs| :: Untrimmed(cs[j], es[j], g, rx)
  }

  /** Nil caches are untrimmed, so from them a layer answers what its patterns select. */
  lemma ClearedAnswerOf(es: seq<Option<Config.Entity>>, g: Nodes, rx: Regex, d: Dir)
    ensures AnswerOf(ClearedAll(|es|), es, g, rx, d) == ClearedAnswer(es, g, rx, d)
  {
    UntrimmedAnswer(ClearedAll(|es|), es, g, rx, d);
  }

  /**
   * On untrimmed caches a layer answers what it answers on cleared caches,
   * and filling leaves the caches untrimmed.
   */
  lemma UntrimmedAnswer(cs: seq<Cache>, es: seq<Option<Config.Entity>>, g: Nodes, rx: Regex, d: Dir)
    requires AllUntrimmed(cs, es, g, rx)
    ensures AnswerOf(cs, es, g, rx, d) == ClearedAnswer(es, g, rx, d)
    ensures AllUntrimmed(FilledAll(cs, es, g, rx, d), es, g, rx)
  {
    forall j | 0 <= j < |cs|
      ensures cs[j].GetAll(es[j], g, rx, d).1 == Cleared.GetAll(es[j], g, rx, d).1
      ensures Untrimmed(cs[j].GetAll(es[j], g, rx, d).0, es[j], g, rx)
    {
      UntrimmedGetAll(cs[j], es[j], g, rx, d);
    }
  }

  class Layer {
    const name: string
    const entities: seq<Entity>
    var nodeSet: Option<set<string>>
    var examplePath: Option<Paths>

    /** The entity objects of the layer. */
    ghost function Objs(): set<Entity> {
      set i | 0 <= i < |entities| :: entities[i]
    }

    /** The entities are distinct objects. */
    ghost predicate Valid() {
      forall i, j | 0 <= i < j < |entities| :: entities[i] != entities[j]
    }

    constructor (name: string, entities: seq<Entity>)
      requires forall i, j | 0 <= i < j < |entities| :: entities[i] != entities[j]
      ensures this.name == name && this.entities == entities && Valid()
      ensures nodeSet.None? && examplePath.None?
    {
      this.name := name;
      this.entities := entities;
      nodeSet, examplePath := None, None;
    }

    /** What the read-only getters of side `d` answer, over every entity (a nil answer counts as empty). */
    ghost function AllOnlyRead(d: Dir): set<string>
      reads Objs()
    {
      OnlyReadOf(Datas(), Confs(), d)
    }

    /** The caches of the entities, in order. */
    ghost function Datas(): seq<Cache>
      reads Objs()
    {
      seq(|entities|, j requires 0 <= j < |entities| reads Objs() => entities[j].Data())
    }

    /** The pattern sets of the entities, in order. */
    function Confs(): seq<Option<Config.Entity>> {
      seq(|entities|, j requires 0 <= j < |entities| => entities[j].conf)
    }

    /** The example paths of the entities, in order. */
    ghost function EntityPaths(): seq<Option<Paths>>
      reads Objs()
    {
      seq(|entities|, j requires 0 <= j < |entities| reads Objs() => entities[j].examplePath)
    }

    /** Run `op` on every entity, in order. */
    method ApplyAll(op: Op, g: Nodes, rx: Regex)
      requires Valid()
      modifies Objs()
      ensures forall j | 0 <= j < |entities| :: entities[j].Data() == old(entities[j].Data()).Apply(op, entities[j].conf, g, rx)
      ensures Datas() == ApplyEach(old(Datas()), Confs(), op, g, rx)
    {
      var i := 0;
      while i < |entities|
        invariant 0 <= i <= |entities|
        invariant forall j | 0 <= j < i :: entities[j].Data() == old(entities[j].Data()).Apply(op, entities[j].conf, g, rx)
        invariant forall j | i <= j < |entities| :: entities[j].Data() == old(entities[j].Data())
      {
        entities[i].Apply(op, g, rx);
        i := i + 1;
      }
      assert forall j | 0 <= j < |entities| :: Datas()[j] == ApplyEach(old(Datas()), Confs(), op, g, rx)[j];
    }

    /** `ResetLayer`: the layer caches back to nil and every entity reset. */
    method ResetLayer()
      requires Valid()
      modifies this, Objs()
      ensures nodeSet.None? && examplePath.None?
      ensures forall j | 0 <= j < |entities| :: entities[j].Data() == Cleared
    {
      nodeSet := None;
      examplePath := None;
      ApplyAll(ResetOp, g := map[], rx := (p: string, s: string) => false);
    }

    /**
     * `GetInAllNodeSet` (d == In) and `GetOutAllNodeSet` (d == Out): every
     * entity fills its caches for side `d`, and the answer is the union of
     * the entities' answers, which the read-only getters now give back.
     */
    method GetAllNodeSet(d: Dir, g: Nodes, rx: Regex) returns (r: set<string>)
      requires Valid()
      modifies Objs()
      ensures forall j | 0 <= j < |entities| :: entities[j].Data() == old(entities[j].Data()).GetAll(entities[j].conf, g, rx, d).0
      ensures forall k :: k in r <==> exists j | 0 <= j < |entities| :: k in old(entities[j].Data()).GetAll(entities[j].conf, g, rx, d).1
      ensures r == AllOnlyRead(d)
      ensures Datas() == FilledAll(old(Datas()), Confs(), g, rx, d)
      ensures r == AnswerOf(old(Datas()), Confs(), g, rx, d)
    {
      r := {};
      var i := 0;
      while i < |entities|
        invariant 0 <= i <= |entities|
        invariant forall j | 0 <= j < i :: entities[j].Data() == old(entities[j].Data()).GetAll(entities[j].conf, g, rx, d).0
        invariant forall j | i <= j < |entities| :: entities[j].Data() == old(entities[j].Data())
        invariant forall k :: k in r <==> exists j | 0 <= j < i :: k in old(entities[j].Data()).GetAll(entities[j].conf, g, rx, d).1
      {
        var s := entities[i].GetAllNodeSet(d, g, rx);
        r := r + s;
        i := i + 1;
      }
      forall j | 0 <= j < |entities|
        ensures entities[j].Data().OnlyRead(entities[j].conf, d) == Some(old(entities[j].Data()).GetAll(entities[j].conf, g, rx, d).1)
      {
        GetAllMemo(old(entities[j].Data()), entities[j].conf, g, rx, d);
      }
      assert forall j | 0 <= j < |entities| :: Datas()[j] == FilledAll(old(Datas()), Confs(), g, rx, d)[j];
      forall k | k in r ensures k in AnswerOf(old(Datas()), Confs(), g, rx, d) {
        var j :| 0 <= j < |entities| && k in old(entities[j].Data()).GetAll(entities[j].conf, g, rx, d).1;
        assert old(Datas())[j] == old(entities[j].Data()) && Confs()[j] == entities[j].conf;
      }
      forall k | k in AnswerOf(old(Datas()), Confs(), g, rx, d) ensures k in r {
        var j :| 0 <= j < |entities| && k in old(Datas())[j].GetAll(Confs()[j], g, rx, d).1;
      }      assert forall j | 0 <= j < |entities| :: Datas()[j] == entities[j].Data() && Confs()[j] == entities[j].conf;
    }

    /** `GetInAllNodeSetOnlyRead` (d == In) and `GetOutAllNodeSetOnlyRead` (d == Out): the union of what the caches hold. */
    method GetAllOnlyRead(d: Dir) returns (r: set<string>)
      ensures r == AllOnlyRead(d)
    {
      r := {};
      var i := 0;
      while i < |entities|
        invariant 0 <= i <= |entities|
        invariant forall k :: k in r <==> exists j | 0 <= j < i :: entities[j].Data().OnlyRead(entities[j].conf, d).Some?
                                                              && k in entities[j].Data().OnlyRead(entities[j].conf, d).value
      {
        var s := entities[i].Data().OnlyRead(entities[i].conf, d);
        if s.Some? {
          r := r + s.value;
        }
        i := i + 1;
      }      assert forall j | 0 <= j < |entities| :: Datas()[j] == entities[j].Data() && Confs()[j] == entities[j].conf;
    }

    /**
     * `GetExamplePath`: the cached paths, or the entities' paths merged in
     * order and cached.
     */
    method GetExamplePath() returns (r: Paths)
      modifies this
      ensures old(examplePath).Some? ==> r == old(examplePath).value && examplePath == old(examplePath)
      ensures old(examplePath).None? ==> r == MergeAll(EntityPaths()) && examplePath == Some(r)
    {
      if examplePath.Some? {
        return examplePath.value;
      }
      ghost var ps := EntityPaths();
      r := map[];
      var i := 0;
      while i < |entities|
        invariant 0 <= i <= |entities|
        invariant r == MergeAll(ps[..i])
      {
        assert ps[..i + 1][..i] == ps[..i];
        var p := entities[i].examplePath;
        assert ps[..i + 1][i] == p;
        if p.Some? {
          r := MergeInto(r, p.value);
        }
        i := i + 1;
      }
      assert ps[..|entities|] == ps;
      examplePath := Some(r);
      assert ps == EntityPaths();
    }
  }
}

/**
 * The flow configuration: layers of entities, each entity a set of optional
 * patterns on a function's name and signature, on its callers and incoming
 * call sites, and on its callees and outgoing call sites.
 */
module Config {
  import opened Wrappers
  import opened IR
  import opened Modes

  /** An entity: every pattern may be absent (a nil `*mode.Mode`). */
  datatype Entity = Entity(
    name: Option<Mode>,
    inSite: Option<Mode>,
    outSite: Option<Mode>,
    signature: Option<Mode>,
    caller: Option<Mode>,
    callee: Option<Mode>)

  datatype Layer = Layer(name: string, entities: seq<Option<Entity>>)

  datatype Configuration = Configuration(packagePrefix: string, focus: seq<Mode>, ignore: seq<Mode>, layers: seq<Layer>)

  // The nil-safe getters: an absent entity has no pattern at all.

  function GetName(e: Option<Entity>): Option<Mode> {
    if e.None? then None else e.value.name
  }

  function GetInSite(e: Option<Entity>): Option<Mode> {
    if e.None? then None else e.value.inSite
  }

  function GetOutSite(e: Option<Entity>): Option<Mode> {
    if e.None? then None else e.value.outSite
  }

  function GetSignature(e: Option<Entity>): Option<Mode> {
    if e.None? then None else e.value.signature
  }

  function GetCaller(e: Option<Entity>): Option<Mode> {
    if e.None? then None else e.value.caller
  }

  function GetCallee(e: Option<Entity>): Option<Mode> {
    if e.None? then None else e.value.callee
  }

  /** Every getter of an absent entity returns no pattern, and a present entity's getters return its fields. */
  lemma Getters(e: Option<Entity>)
    ensures e.None? ==> GetName(e).None? && GetInSite(e).None? && GetOutSite(e).None?
    ensures e.None? ==> GetSignature(e).None? && GetCaller(e).None? && GetCallee(e).None?
    ensures e.Some? ==> GetName(e) == e.value.name && GetSignature(e) == e.value.signature
    ensures e.Some? ==> GetCaller(e) == e.value.caller && GetInSite(e) == e.value.inSite
    ensures e.Some? ==> GetCallee(e) == e.value.callee && GetOutSite(e) == e.value.outSite
  {
  }

  /** `IsCheckIn`: the entity constrains incoming edges (by caller or by call site). */
  predicate IsCheckIn(e: Option<Entity>) {
    GetCaller(e).Some? || GetInSite(e).Some?
  }

  /** `IsCheckOut`: the entity constrains outgoing edges (by callee or by call site). */
  predicate IsCheckOut(e: Option<Entity>) {
    GetCallee(e).Some? || GetOutSite(e).Some?
  }

  /** The entity constrains nothing at all. */
  predicate Unconstrained(e: Option<Entity>) {
    GetName(e).None? && GetSignature(e).None? && !IsCheckIn(e) && !IsCheckOut(e)
  }

  /** An absent pattern passes; a present one must match. */
  predicate PatternPass(m: Option<Mode>, s: string, rx: Regex) {
    m.None? || ModeMatch(m.value, s, rx)
  }

  /** `ShouldNodeSanityPass`: the name and signature checks alone. */
  predicate ShouldNodeSanityPass(e: Option<Entity>, n: Node, rx: Regex) {
    if n.func.name == "" || n.func.signature == "" then false
    else if Unconstrained(e) then false
    else
      var nameCheckPass := PatternPass(GetName(e), n.func.name, rx);
      var signatureCheckPass := PatternPass(GetSignature(e), n.func.signature, rx);
      nameCheckPass && signatureCheckPass
  }

  /**
   * `ShouldInPass`: an incoming edge passes when the entity does not check
   * incoming edges, or when its caller's name and its site's name match the
   * patterns that are set.
   */
  predicate ShouldInPass(e: Option<Entity>, g: Nodes, x: Edge, rx: Regex) {
    if !IsCheckIn(e) then true
    else
      var isCallerCheckPass := PatternPass(GetCaller(e), NameOf(g, x.caller), rx);
      var isInSiteCheckPass := PatternPass(GetInSite(e), x.site.name, rx);
      isCallerCheckPass && isInSiteCheckPass
  }

  /** `ShouldOutPass`: the mirror image of `ShouldInPass`, on the callee and the outgoing site. */
  predicate ShouldOutPass(e: Option<Entity>, g: Nodes, x: Edge, rx: Regex) {
    if !IsCheckOut(e) then true
    else
      var isCalleeCheckPass := PatternPass(GetCallee(e), NameOf(g, x.callee), rx);
      var isOutSiteCheckPass := PatternPass(GetOutSite(e), x.site.name, rx);
      isCalleeCheckPass && isOutSiteCheckPass
  }

  /**
   * `ShouldNodePass`: the name and signature checks, plus, when the entity checks
   * incoming (outgoing) edges, at least one incoming (outgoing) edge that passes.
   */
  predicate ShouldNodePass(e: Option<Entity>, g: Nodes, n: Node, rx: Regex) {
    if n.func.name == "" || n.func.signature == "" then false
    else if Unconstrained(e) then false
    else
      var nameCheckPass := PatternPass(GetName(e), n.func.name, rx);
      var signatureCheckPass := PatternPass(GetSignature(e), n.func.signature, rx);
      var inCheckPass := !IsCheckIn(e) || exists i | 0 <= i < |n.ins| :: ShouldInPass(e, g, n.ins[i], rx);
      var outCheckPass := !IsCheckOut(e) || exists i | 0 <= i < |n.outs| :: ShouldOutPass(e, g, n.outs[i], rx);
      nameCheckPass && signatureCheckPass && inCheckPass && outCheckPass
  }

  /** Both node tests reject a function with an empty name or signature, and an entity that constrains nothing. */
  lemma NodeChecksReject(e: Option<Entity>, g: Nodes, n: Node, rx: Regex)
    requires n.func.name == "" || n.func.signature == "" || Unconstrained(e)
    ensures !ShouldNodePass(e, g, n, rx) && !ShouldNodeSanityPass(e, n, rx)
  {
  }

  /**
   * `ShouldNodePass` is `ShouldNodeSanityPass` plus the edge checks: a node passes
   * iff it passes the sanity test and, for each direction the entity checks,
   * one of its edges in that direction passes.
   */
  lemma ShouldNodePassSplits(e: Option<Entity>, g: Nodes, n: Node, rx: Regex)
    ensures ShouldNodePass(e, g, n, rx) <==>
              && ShouldNodeSanityPass(e, n, rx)
              && (IsCheckIn(e) ==> exists x | x in n.ins :: ShouldInPass(e, g, x, rx))
              && (IsCheckOut(e) ==> exists x | x in n.outs :: ShouldOutPass(e, g, x, rx))
  {
    if IsCheckIn(e) && exists x | x in n.ins :: ShouldInPass(e, g, x, rx) {
      var x :| x in n.ins && ShouldInPass(e, g, x, rx);
      var i :| 0 <= i < |n.ins| && n.ins[i] == x;
    }
    if IsCheckOut(e) && exists x | x in n.outs :: ShouldOutPass(e, g, x, rx) {
      var x :| x in n.outs && ShouldOutPass(e, g, x, rx);
      var i :| 0 <= i < |n.outs| && n.outs[i] == x;
    }
  }

  /** Exchanging the in-side and out-side patterns of an entity. */
  function Mirror(e: Option<Entity>): (m: Option<Entity>)
    ensures IsCheckIn(m) == IsCheckOut(e) && IsCheckOut(m) == IsCheckIn(e)
    ensures Unconstrained(m) == Unconstrained(e)
  {
    if e.None? then None
    else Some(e.value.(inSite := e.value.outSite, outSite := e.value.inSite,
                       caller := e.value.callee, callee := e.value.caller))
  }

  /** Mirroring twice gives the entity back. */
  lemma MirrorInvolution(e: Option<Entity>)
    ensures Mirror(Mirror(e)) == e
  {
  }

  /** An edge walked backwards. */
  function Reverse(x: Edge): Edge {
    Edge(x.callee, x.site, x.caller)
  }

  /** The out-edge test is the in-edge test of the mirrored entity on the reversed edge. */
  lemma OutPassIsMirroredInPass(e: Option<Entity>, g: Nodes, x: Edge, rx: Regex)
    ensures ShouldOutPass(e, g, x, rx) == ShouldInPass(Mirror(e), g, Reverse(x), rx)
  {
  }

  /** Why a configuration is refused. */
  datatype ConfigError = NilConfig | TooFewLayers | EmptyLayer(index: nat)

  /** The index of the first layer without entities, if any. */
  function FirstEmptyLayer(layers: seq<Layer>, from: nat): (r: Option<nat>)
    requires from <= |layers|
    ensures r.None? <==> forall i | from <= i < |layers| :: |layers[i].entities| > 0
    ensures r.Some? ==> from <= r.value < |layers| && |layers[r.value].entities| == 0
                        && forall i | from <= i < r.value :: |layers[i].entities| > 0
    decreases |layers| - from
  {
    if from == |layers| then None
    else if |layers[from].entities| == 0 then Some(from)
    else FirstEmptyLayer(layers, from + 1)
  }

  /**
   * `Config.Validate`: refuses an absent configuration, fewer than two layers,
   * and (naming the first one) a layer without entities; accepts everything else.
   */
  function Validate(c: Option<Configuration>): (r: Option<ConfigError>)
    ensures r.None? <==> c.Some? && |c.value.layers| >= 2 && forall i | 0 <= i < |c.value.layers| :: |c.value.layers[i].entities| > 0
    ensures r == Some(NilConfig) <==> c.None?
    ensures r == Some(TooFewLayers) <==> c.Some? && |c.value.layers| < 2
    ensures r.Some? && r.value.EmptyLayer? ==>
              c.Some? && r.value.index < |c.value.layers| && |c.value.layers[r.value.index].entities| == 0
              && forall i | 0 <= i < r.value.index :: |c.value.layers[i].entities| > 0
  {
    if c.None? then Some(NilConfig)
    else if |c.value.layers| < 2 then Some(TooFewLayers)
    else
      match FirstEmptyLayer(c.value.layers, 0)
      case None => None
      case Some(i) => Some(EmptyLayer(i))
  }
}

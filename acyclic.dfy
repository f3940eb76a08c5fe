/**
 * For a reference graph without cycles the cycle guard never fires: resolution
 * equals the plain depth-first expansion that renders every marker's item fully
 * resolved, recursively, with no ancestor chain and no suppression.
 *
 * Acyclicity is witnessed by a ranking of the indexed codenames under which every
 * item's markers name only lower-ranked items.
 */
module Acyclic {
  import opened Wrappers
  import opened Content
  import opened Markup
  import opened Resolution

  /** Plain expansion, to depth `fuel`: every marker naming an indexed item is
      replaced by the rendering of that item, expanded the same way. */
  function PlainExpand(segs: seq<Segment>, index: LinkedItems, env: Env, fuel: nat): (r: string)
    decreases fuel, 1, |segs|
  {
    if segs == [] then ""
    else
      var head :=
        match segs[0]
        case Text(t) => t
        case Marker(c) =>
          if c !in index || fuel == 0 then ""
          else RenderItem(c, PlainBind(index[c], index, env, fuel - 1), env.resolvers);
      head + PlainExpand(segs[1..], index, env, fuel)
  }

  function PlainBind(p: Payload, index: LinkedItems, env: Env, fuel: nat): (m: Option<Model>)
    decreases fuel, 2, 0
  {
    match env.typeProvider(p.contentType)
    case None => None
    case Some(t) =>
      Some(Model(t, if p.richText.Some? then Some(PlainExpand(InlineSegments(p), index, env, fuel)) else None))
  }

  /** Every marker of `segs` that names an indexed item names one ranked below `bound`. */
  ghost predicate MarkersRankedBelow(segs: seq<Segment>, index: LinkedItems, rank: map<Codename, nat>, bound: nat) {
    forall i :: 0 <= i < |segs| && segs[i].Marker? && segs[i].codename in index ==>
      segs[i].codename in rank && rank[segs[i].codename] < bound
  }

  /** `rank` witnesses that the linked items reference each other without cycles. */
  ghost predicate RankedAcyclic(index: LinkedItems, rank: map<Codename, nat>) {
    forall c :: c in index ==> c in rank && MarkersRankedBelow(InlineSegments(index[c]), index, rank, rank[c])
  }

  lemma MarkersRankedBelowTail(segs: seq<Segment>, index: LinkedItems, rank: map<Codename, nat>, bound: nat)
    requires segs != [] && MarkersRankedBelow(segs, index, rank, bound)
    ensures MarkersRankedBelow(segs[1..], index, rank, bound)
  {
    forall i | 0 <= i < |segs[1..]| ensures segs[1..][i] == segs[i + 1] {
    }
  }

  /** The invariant of the proof: outside suppression, with every marker ranked
      below `bound` and every ancestor ranked at or above it, guarded expansion
      and plain expansion agree. */
  lemma {:induction false} ExpandAgreesWithPlain(
    segs: seq<Segment>, ctx: Context, env: Env, rank: map<Codename, nat>, bound: nat, fuel: nat)
    requires !ctx.suppressed
    requires RankedAcyclic(ctx.index, rank)
    requires MarkersRankedBelow(segs, ctx.index, rank, bound)
    requires forall x :: x in ctx.chain ==> x in rank && rank[x] >= bound
    requires bound <= fuel
    ensures Expand(segs, ctx, env) == PlainExpand(segs, ctx.index, env, fuel)
    decreases Unvisited(ctx), 1, |segs|
  {
    if segs != [] {
      MarkersRankedBelowTail(segs, ctx.index, rank, bound);
      ExpandAgreesWithPlain(segs[1..], ctx, env, rank, bound, fuel);
      if segs[0].Marker? && segs[0].codename in ctx.index {
        MarkerAgreesWithPlain(segs[0].codename, ctx, env, rank, bound, fuel);
      }
    }
  }

  /** Pushing an item ranked below every ancestor keeps the whole chain ranked at
      or above that item. */
  lemma ChildChainRanked(chain: seq<Codename>, c: Codename, rank: map<Codename, nat>, bound: nat)
    requires c in rank && rank[c] < bound
    requires forall x :: x in chain ==> x in rank && rank[x] >= bound
    ensures forall x :: x in chain + [c] ==> x in rank && rank[x] >= rank[c]
  {
  }

  /** One marker naming an indexed item below `bound`: the item is not on the
      chain, so it is pushed and fully resolved, as the plain expansion does. */
  lemma {:induction false} MarkerAgreesWithPlain(
    c: Codename, ctx: Context, env: Env, rank: map<Codename, nat>, bound: nat, fuel: nat)
    requires !ctx.suppressed
    requires RankedAcyclic(ctx.index, rank)
    requires c in ctx.index && c in rank && rank[c] < bound
    requires forall x :: x in ctx.chain ==> x in rank && rank[x] >= bound
    requires bound <= fuel
    ensures ExpandMarker(c, ctx, env) == RenderItem(c, PlainBind(ctx.index[c], ctx.index, env, fuel - 1), env.resolvers)
    decreases Unvisited(ctx), 0, 1
  {
    assert c !in ctx.chain;
    FirstVisitBindsBelow(c, ctx, env);
    ChildBindAgreesWithPlain(c, ctx, env, rank, bound, fuel);
  }

  /** The item a marker pushes, bound one level down, binds as in plain expansion
      with one level of depth less. */
  lemma {:induction false} ChildBindAgreesWithPlain(
    c: Codename, ctx: Context, env: Env, rank: map<Codename, nat>, bound: nat, fuel: nat)
    requires !ctx.suppressed
    requires RankedAcyclic(ctx.index, rank)
    requires c in ctx.index && c in rank && rank[c] < bound
    requires forall x :: x in ctx.chain ==> x in rank && rank[x] >= bound
    requires bound <= fuel
    ensures c !in ctx.chain
    ensures Bind(ctx.index[c], ctx.(chain := ctx.chain + [c]), env) == PlainBind(ctx.index[c], ctx.index, env, fuel - 1)
    decreases Unvisited(ctx), 0, 0
  {
    assert c !in ctx.chain;
    var p, child, below := ctx.index[c], ctx.(chain := ctx.chain + [c]), rank[c];
    assert Unvisited(child) < Unvisited(ctx) by { UnvisitedShrinks(ctx, c); }
    assert forall x :: x in child.chain ==> x in rank && rank[x] >= below by {
      ChildChainRanked(ctx.chain, c, rank, bound);
    }
    assert MarkersRankedBelow(InlineSegments(p), child.index, rank, below) by {
      ItemMarkersRanked(ctx.index, rank, c);
    }
    BindAgreesWithPlain(p, child, env, rank, below, fuel - 1);
    assert child.index == ctx.index;
  }

  /** An indexed item's own markers are ranked below it. */
  lemma ItemMarkersRanked(index: LinkedItems, rank: map<Codename, nat>, c: Codename)
    requires RankedAcyclic(index, rank) && c in index
    ensures c in rank && MarkersRankedBelow(InlineSegments(index[c]), index, rank, rank[c])
  {
  }

  /** Binding outside suppression, with the payload's markers ranked below every
      ancestor, gives the plain binding. */
  lemma {:induction false} BindAgreesWithPlain(
    p: Payload, ctx: Context, env: Env, rank: map<Codename, nat>, bound: nat, fuel: nat)
    requires !ctx.suppressed
    requires RankedAcyclic(ctx.index, rank)
    requires MarkersRankedBelow(InlineSegments(p), ctx.index, rank, bound)
    requires forall x :: x in ctx.chain ==> x in rank && rank[x] >= bound
    requires bound <= fuel
    ensures Bind(p, ctx, env) == PlainBind(p, ctx.index, env, fuel)
    decreases Unvisited(ctx), 2, 0
  {
    if p.richText.Some? {
      ExpandAgreesWithPlain(InlineSegments(p), ctx, env, rank, bound, fuel);
    }
  }

  /** Acyclic resolution: when the linked items reference each other without
      cycles and the root's markers name only items ranked below `bound`, the model
      provider's result is the plain, fully expanded binding of the root at any depth
      no smaller than `bound`. The root may be absent from the linked items; when it
      is listed, its rank must be at least `bound`, so none of its markers leads
      back to it. */
  lemma AcyclicResolutionIsPlain(
    p: Payload, index: LinkedItems, env: Env, rank: map<Codename, nat>, bound: nat, fuel: nat)
    requires RankedAcyclic(index, rank)
    requires MarkersRankedBelow(InlineSegments(p), index, rank, bound)
    requires p.codename in index ==> p.codename in rank && rank[p.codename] >= bound
    requires bound <= fuel
    ensures GetContentItemModel(p, index, env) == PlainBind(p, index, env, fuel)
  {
    var rank' := if p.codename in index then rank else rank[p.codename := bound];
    assert RankedAcyclic(index, rank') by {
      forall c | c in index
        ensures c in rank' && MarkersRankedBelow(InlineSegments(index[c]), index, rank', rank'[c])
      {
        assert rank'[c] == rank[c];
      }
    }
    assert MarkersRankedBelow(InlineSegments(p), index, rank', bound);
    BindAgreesWithPlain(p, RootContext(p, index), env, rank', bound, fuel);
  }

  /** A root listed among its own linked items: the depth needed is its rank. */
  lemma ListedRootResolutionIsPlain(p: Payload, index: LinkedItems, env: Env, rank: map<Codename, nat>, fuel: nat)
    requires p.codename in index && index[p.codename] == p
    requires RankedAcyclic(index, rank)
    requires rank[p.codename] <= fuel
    ensures GetContentItemModel(p, index, env) == PlainBind(p, index, env, fuel)
  {
    AcyclicResolutionIsPlain(p, index, env, rank, rank[p.codename], fuel);
  }
}

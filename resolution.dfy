/**
 * The cycle-safe resolution of inline content items: the model provider binds a
 * payload to its model type and expands the markers of its rich text, each marker
 * becoming the rendering of the item it names, itself resolved the same way.
 *
 * A resolution context carries the linked-items index, the ancestor chain (the
 * codenames being resolved on the current branch, the root item's own codename
 * first) and the suppression flag. A marker that names an item already on the
 * chain binds that item again "as if there were no inline content items": with
 * suppression on, which strips every marker below that point on that branch.
 */
module Resolution {
  import opened Wrappers
  import opened Content
  import opened Markup

  datatype Context = Context(index: LinkedItems, chain: seq<Codename>, suppressed: bool)

  /** The two capabilities resolution is parameterised by: the type provider and
      the processor's resolver registry as it stands when resolution starts. */
  datatype Env = Env(typeProvider: TypeProvider, resolvers: map<TypeId, Resolver>)

  /** First component of the termination measure: suppression only ever switches on. */
  function Budget(ctx: Context): nat {
    if ctx.suppressed then 0 else 1
  }

  /** Second component: the indexed codenames not yet on the ancestor chain. */
  function Unvisited(ctx: Context): nat {
    |ctx.index.Keys - set c | c in ctx.chain|
  }

  /** Pushing an indexed codename that is not on the chain leaves fewer unvisited. */
  lemma UnvisitedShrinks(ctx: Context, c: Codename)
    requires c in ctx.index && c !in ctx.chain
    ensures Unvisited(ctx.(chain := ctx.chain + [c])) < Unvisited(ctx)
  {
    var before := ctx.index.Keys - set x | x in ctx.chain;
    var after := ctx.index.Keys - set x | x in ctx.chain + [c];
    assert after == before - {c};
    assert c in before;
  }

  /** The segments of a payload's rich text; none when it has no rich-text element. */
  function InlineSegments(p: Payload): seq<Segment> {
    if p.richText.Some? then Parse(p.richText.value.value) else []
  }

  /** The fragment emitted for a bound item: what the resolver registered for its
      type returns, or nothing when it did not bind or no resolver is registered. */
  function RenderItem(c: Codename, bound: Option<Model>, resolvers: map<TypeId, Resolver>): string {
    match bound
    case None => ""
    case Some(m) =>
      if m.modelType in resolvers then resolvers[m.modelType](ResolvedItem(c, m)) else ""
  }

  /** The rich text of `segs` with markers expanded in `ctx`, in document order. */
  function Expand(segs: seq<Segment>, ctx: Context, env: Env): (r: string)
    decreases Budget(ctx), Unvisited(ctx), 1, |segs|
  {
    if segs == [] then ""
    else
      var head :=
        match segs[0]
        case Text(t) => t
        case Marker(c) => if ctx.suppressed then "" else ExpandMarker(c, ctx, env);
      head + Expand(segs[1..], ctx, env)
  }

  /** The fragment for one marker outside a suppressed branch. */
  function ExpandMarker(c: Codename, ctx: Context, env: Env): (r: string)
    requires !ctx.suppressed
    decreases Budget(ctx), Unvisited(ctx), 0, 0
  {
    if c !in ctx.index then ""
    else if c in ctx.chain then
      RenderItem(c, Bind(ctx.index[c], ctx.(suppressed := true), env), env.resolvers)
    else
      UnvisitedShrinks(ctx, c);
      RenderItem(c, Bind(ctx.index[c], ctx.(chain := ctx.chain + [c]), env), env.resolvers)
  }

  /** Binds a payload to the model type its discriminator maps to, its rich-text
      property set to the expansion of its rich text in `ctx`; None when unmapped. */
  function Bind(p: Payload, ctx: Context, env: Env): (m: Option<Model>)
    decreases Budget(ctx), Unvisited(ctx), 2, 0
  {
    match env.typeProvider(p.contentType)
    case None => None
    case Some(t) =>
      Some(Model(t, if p.richText.Some? then Some(Expand(InlineSegments(p), ctx, env)) else None))
  }

  /** The context a top-level call starts in: the root item is already being resolved. */
  function RootContext(p: Payload, index: LinkedItems): Context {
    Context(index, [p.codename], false)
  }

  /** The model provider's entry point: null exactly when the type provider maps
      the payload's discriminator to no type, otherwise a model of that type. */
  function GetContentItemModel(p: Payload, index: LinkedItems, env: Env): (r: Option<Model>)
    ensures r.None? <==> env.typeProvider(p.contentType).None?
    ensures r.Some? ==> r.value.modelType == env.typeProvider(p.contentType).value
    ensures r.Some? ==> (r.value.rt.Some? <==> p.richText.Some?)
  {
    Bind(p, RootContext(p, index), env)
  }

  /** The binding "as if there were no inline content items": every marker stripped. */
  function BindWithoutInlineItems(p: Payload, env: Env): Option<Model> {
    match env.typeProvider(p.contentType)
    case None => None
    case Some(t) =>
      Some(Model(t, if p.richText.Some? then Some(LiteralText(InlineSegments(p))) else None))
  }

  /** Expansion distributes over concatenation: each segment's output is spliced
      in document order. */
  lemma {:induction false} ExpandConcat(a: seq<Segment>, b: seq<Segment>, ctx: Context, env: Env)
    ensures Expand(a + b, ctx, env) == Expand(a, ctx, env) + Expand(b, ctx, env)
    decreases |a|
  {
    if a != [] {
      assert (a + b)[1..] == a[1..] + b;
      ExpandConcat(a[1..], b, ctx, env);
    } else {
      assert a + b == b;
    }
  }

  /** Literal text is kept as it is; a marker contributes its item's fragment. */
  lemma ExpandTextThenMarker(t: string, c: Codename, ctx: Context, env: Env)
    requires !ctx.suppressed
    ensures Expand([Text(t), Marker(c)], ctx, env) == t + ExpandMarker(c, ctx, env)
  {
    assert [Text(t), Marker(c)][1..] == [Marker(c)];
    assert [Marker(c)][1..] == [];
    assert Expand([Marker(c)], ctx, env) == ExpandMarker(c, ctx, env) + "";
  }

  /** A first visit: an indexed item not on the chain is pushed onto it and bound
      there, and its binding is handed to the resolver for its type. */
  lemma FirstVisitBindsBelow(c: Codename, ctx: Context, env: Env)
    requires !ctx.suppressed && c in ctx.index && c !in ctx.chain
    ensures ExpandMarker(c, ctx, env)
         == RenderItem(c, Bind(ctx.index[c], ctx.(chain := ctx.chain + [c]), env), env.resolvers)
  {
  }

  /** Below a cycle hit nothing is expanded: the result is the literal text alone. */
  lemma {:induction false} SuppressedExpandIsLiteral(segs: seq<Segment>, ctx: Context, env: Env)
    requires ctx.suppressed
    ensures Expand(segs, ctx, env) == LiteralText(segs)
    decreases |segs|
  {
    if segs != [] {
      SuppressedExpandIsLiteral(segs[1..], ctx, env);
    }
  }

  /** Binding in a suppressed context is binding without inline items. */
  lemma SuppressedBind(p: Payload, ctx: Context, env: Env)
    requires ctx.suppressed
    ensures Bind(p, ctx, env) == BindWithoutInlineItems(p, env)
  {
    SuppressedExpandIsLiteral(InlineSegments(p), ctx, env);
  }

  /** The cycle rule: a marker naming an item already on the ancestor chain renders
      that item bound with all of its own markers removed. */
  lemma CycleReentryStripsMarkers(c: Codename, ctx: Context, env: Env)
    requires !ctx.suppressed && c in ctx.index && c in ctx.chain
    ensures ExpandMarker(c, ctx, env)
         == RenderItem(c, BindWithoutInlineItems(ctx.index[c], env), env.resolvers)
  {
    SuppressedBind(ctx.index[c], ctx.(suppressed := true), env);
  }

  /** A marker whose codename is not in the linked-items index contributes nothing
      and leaves the text around it as it is. */
  lemma MissingItemDropped(a: seq<Segment>, c: Codename, b: seq<Segment>, ctx: Context, env: Env)
    requires c !in ctx.index
    ensures Expand(a + [Marker(c)] + b, ctx, env) == Expand(a, ctx, env) + Expand(b, ctx, env)
  {
    ExpandConcat(a + [Marker(c)], b, ctx, env);
    ExpandConcat(a, [Marker(c)], ctx, env);
    assert [Marker(c)][1..] == [];
  }

  /** Self-reference: the root item is on the chain from the start, so a marker in
      its own rich text naming itself renders it at once without inline items. */
  lemma SelfReferenceStripsAtRoot(p: Payload, index: LinkedItems, env: Env)
    requires p.codename in index && index[p.codename] == p
    ensures ExpandMarker(p.codename, RootContext(p, index), env)
         == RenderItem(p.codename, BindWithoutInlineItems(p, env), env.resolvers)
  {
    CycleReentryStripsMarkers(p.codename, RootContext(p, index), env);
  }
}

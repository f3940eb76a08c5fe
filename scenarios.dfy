/**
 * The three resolution scenarios of the code-first model provider: a mutual
 * cycle rt1 -> rt2 -> rt1, a self-reference rt3 -> rt3, and an item whose type
 * discriminator has no mapped type. The fixtures keep the payload fields the
 * engine reads; the rich-text values are the fixtures' markup, with the marker
 * opening written through its named constant.
 */
module Scenarios {
  import opened Wrappers
  import opened Content
  import opened Markup
  import opened Resolution
  import opened Processing

  /** The model type with a single rich-text property RT. */
  const ContentItemWithSingleRte: TypeId := "ContentItemWithSingleRTE"

  /** The resolver registered for that type: it renders an item as its own RT
      (a null RT renders as the empty string). */
  function RichTextInlineResolver(data: ResolvedItem): string {
    if data.item.rt.Some? then data.item.rt.value else ""
  }

  /** The faked type provider of the cycle scenarios: every discriminator maps to
      the single-RT model type. */
  function SingleRteTypeProvider(discriminator: string): Option<TypeId> {
    Some(ContentItemWithSingleRte)
  }

  function RichTextElementWith(value: string, modularContent: seq<Codename>): RichTextElement {
    RichTextElement("RT", value, modularContent)
  }

  /** rt1: its marker to rt2 ends in `</object` without the final `>`. */
  const Rt1: Payload := Payload("rt1", "simple_richtext",
    Some(RichTextElementWith("<span>FirstRT</span>" + MarkerOpen + "rt2\"></object", ["rt2"])))

  const Rt2: Payload := Payload("rt2", "simple_richtext",
    Some(RichTextElementWith("<span>SecondRT</span>" + MarkerOpen + "rt1\"></object>", ["rt1"])))

  const Rt3: Payload := Payload("rt3", "simple_richtext",
    Some(RichTextElementWith("<span>RT</span>" + MarkerOpen + "rt3\"></object>", ["rt3"])))

  /** rt4 has the unmapped discriminator "newType" and no elements. */
  const Rt4: Payload := Payload("rt4", "newType", None)

  const LinkedItemsForItemWithTwoReferencedContentItems: LinkedItems := map["rt2" := Rt2, "rt1" := Rt1]

  const LinkedItemsForItemReferencingItself: LinkedItems := map["rt3" := Rt3]

  function CycleEnv(): Env {
    Env(SingleRteTypeProvider, map[ContentItemWithSingleRte := RichTextInlineResolver])
  }

  lemma ParseRt1()
    ensures InlineSegments(Rt1) == [Text("<span>FirstRT</span>"), Marker("rt2")]
  {
    assert Plain("<span>FirstRT</span>") by { assert |MarkerOpen| == 72; }
    assert "rt2\"></object" == "rt2" + "\"" + CloseTag;
    assert "<span>FirstRT</span>" + MarkerOpen + "rt2\"></object" == "<span>FirstRT</span>" + MarkerOpen + "rt2" + "\"" + CloseTag;
    ParseTextThenMarker("<span>FirstRT</span>", "rt2", CloseTag);
  }

  lemma ParseRt2()
    ensures InlineSegments(Rt2) == [Text("<span>SecondRT</span>"), Marker("rt1")]
  {
    assert Plain("<span>SecondRT</span>") by { assert |MarkerOpen| == 72; }
    assert "rt1\"></object>" == "rt1" + "\"" + (CloseTag + ">");
    assert "<span>SecondRT</span>" + MarkerOpen + "rt1\"></object>" == "<span>SecondRT</span>" + MarkerOpen + "rt1" + "\"" + (CloseTag + ">");
    ParseTextThenMarker("<span>SecondRT</span>", "rt1", CloseTag + ">");
  }

  lemma ParseRt3()
    ensures InlineSegments(Rt3) == [Text("<span>RT</span>"), Marker("rt3")]
  {
    assert Plain("<span>RT</span>") by { assert |MarkerOpen| == 72; }
    assert "rt3\"></object>" == "rt3" + "\"" + (CloseTag + ">");
    assert "<span>RT</span>" + MarkerOpen + "rt3\"></object>" == "<span>RT</span>" + MarkerOpen + "rt3" + "\"" + (CloseTag + ">");
    ParseTextThenMarker("<span>RT</span>", "rt3", CloseTag + ">");
  }

  /** `ty` has a resolver registered that renders an item as its own RT. */
  ghost predicate RendersOwnRt(env: Env, ty: TypeId) {
    ty in env.resolvers && forall d :: env.resolvers[ty](d) == RichTextInlineResolver(d)
  }

  /** An item whose rich text is the run `t` then a marker to `target`, listed
      under its own codename and bound to `ty`. */
  ghost predicate TextThenMarker(p: Payload, t: string, target: Codename, index: LinkedItems, env: Env, ty: TypeId) {
    && p.codename in index && index[p.codename] == p
    && p.richText.Some?
    && InlineSegments(p) == [Text(t), Marker(target)]
    && env.typeProvider(p.contentType) == Some(ty)
  }

  /** Any item re-entered on a cycle renders, under the own-RT resolver, as its
      literal text run. */
  lemma ReentryRendersText(p: Payload, t: string, target: Codename, ctx: Context, env: Env, ty: TypeId)
    requires !ctx.suppressed && TextThenMarker(p, t, target, ctx.index, env, ty) && RendersOwnRt(env, ty)
    requires p.codename in ctx.chain
    ensures ExpandMarker(p.codename, ctx, env) == t
  {
    assert [Text(t), Marker(target)][1..] == [Marker(target)];
    assert LiteralText([Marker(target)]) == [] by { assert [Marker(target)][1..] == []; }
    assert LiteralText([Text(t), Marker(target)]) == t + [];
    assert t + [] == t;
    CycleReentryStripsMarkers(p.codename, ctx, env);
    assert BindWithoutInlineItems(p, env) == Some(Model(ty, Some(t)));
    assert env.resolvers[ty](ResolvedItem(p.codename, Model(ty, Some(t)))) == t;
  }

  /** Any item visited for the first time renders, under the own-RT resolver, as
      its own rich text expanded one level down, with its codename pushed onto the
      chain; an item without rich text renders as nothing. */
  lemma FirstVisitRendersRt(c: Codename, ctx: Context, env: Env, ty: TypeId)
    requires !ctx.suppressed && c in ctx.index && c !in ctx.chain
    requires env.typeProvider(ctx.index[c].contentType) == Some(ty) && RendersOwnRt(env, ty)
    ensures ExpandMarker(c, ctx, env)
         == if ctx.index[c].richText.Some?
            then Expand(InlineSegments(ctx.index[c]), ctx.(chain := ctx.chain + [c]), env)
            else ""
  {
    FirstVisitBindsBelow(c, ctx, env);
  }

  /** Two items referencing each other: the root's own text, then the other item's
      text, then the root again with its markers stripped. */
  lemma MutualCycle(p1: Payload, t1: string, p2: Payload, t2: string, index: LinkedItems, env: Env, ty: TypeId)
    requires p1.codename != p2.codename
    requires TextThenMarker(p1, t1, p2.codename, index, env, ty)
    requires TextThenMarker(p2, t2, p1.codename, index, env, ty)
    requires RendersOwnRt(env, ty)
    ensures GetContentItemModel(p1, index, env) == Some(Model(ty, Some(t1 + t2 + t1)))
  {
    var root := RootContext(p1, index);
    var inner := Context(index, [p1.codename, p2.codename], false);
    ReentryRendersText(p1, t1, p2.codename, inner, env, ty);
    ExpandTextThenMarker(t2, p1.codename, inner, env);
    assert root.chain + [p2.codename] == inner.chain;
    FirstVisitRendersRt(p2.codename, root, env, ty);
    ExpandTextThenMarker(t1, p2.codename, root, env);
    assert t1 + (t2 + t1) == t1 + t2 + t1;
  }

  /** An item referencing itself: its text twice, the second time stripped. */
  lemma SelfCycle(p: Payload, t: string, index: LinkedItems, env: Env, ty: TypeId)
    requires TextThenMarker(p, t, p.codename, index, env, ty)
    requires RendersOwnRt(env, ty)
    ensures GetContentItemModel(p, index, env) == Some(Model(ty, Some(t + t)))
  {
    var root := RootContext(p, index);
    ReentryRendersText(p, t, p.codename, root, env, ty);
    ExpandTextThenMarker(t, p.codename, root, env);
  }

  lemma Rt1Fixture()
    ensures TextThenMarker(Rt1, "<span>FirstRT</span>", "rt2", LinkedItemsForItemWithTwoReferencedContentItems,
                           CycleEnv(), ContentItemWithSingleRte)
  {
    ParseRt1();
  }

  lemma Rt2Fixture()
    ensures TextThenMarker(Rt2, "<span>SecondRT</span>", "rt1", LinkedItemsForItemWithTwoReferencedContentItems,
                           CycleEnv(), ContentItemWithSingleRte)
  {
    ParseRt2();
  }

  lemma Rt3Fixture()
    ensures TextThenMarker(Rt3, "<span>RT</span>", "rt3", LinkedItemsForItemReferencingItself,
                           CycleEnv(), ContentItemWithSingleRte)
  {
    ParseRt3();
  }

  /** The scenarios' registry: the single-RT type renders an item as its own RT.
      Kept apart so that the fixture lemmas below need not unfold the registry. */
  lemma CycleEnvRendersOwnRt()
    ensures RendersOwnRt(CycleEnv(), ContentItemWithSingleRte)
  {
  }

  /** The expected strings of the two cycle scenarios, as concatenations of their
      spans; kept apart because a literal this long is costly in a larger proof. */
  lemma ThreeSpans()
    ensures "<span>FirstRT</span>" + "<span>SecondRT</span>" + "<span>FirstRT</span>"
         == "<span>FirstRT</span><span>SecondRT</span><span>FirstRT</span>"
  {
  }

  lemma TwoSpans()
    ensures "<span>RT</span>" + "<span>RT</span>" == "<span>RT</span><span>RT</span>"
  {
  }

  /** The mutual-cycle fixture resolves to three spans. */
  lemma MutualCycleResolution()
    ensures GetContentItemModel(Rt1, LinkedItemsForItemWithTwoReferencedContentItems, CycleEnv())
         == Some(Model(ContentItemWithSingleRte,
                       Some("<span>FirstRT</span><span>SecondRT</span><span>FirstRT</span>")))
  {
    var index := LinkedItemsForItemWithTwoReferencedContentItems;
    CycleEnvRendersOwnRt();
    Rt1Fixture();
    Rt2Fixture();
    MutualCycle(Rt1, "<span>FirstRT</span>", Rt2, "<span>SecondRT</span>", index, CycleEnv(), ContentItemWithSingleRte);
    ThreeSpans();
  }

  /** The self-reference fixture resolves to two spans. */
  lemma SelfReferenceResolution()
    ensures GetContentItemModel(Rt3, LinkedItemsForItemReferencingItself, CycleEnv())
         == Some(Model(ContentItemWithSingleRte, Some("<span>RT</span><span>RT</span>")))
  {
    CycleEnvRendersOwnRt();
    Rt3Fixture();
    SelfCycle(Rt3, "<span>RT</span>", LinkedItemsForItemReferencingItself, CycleEnv(), ContentItemWithSingleRte);
    TwoSpans();
  }

  method RetrievingContentModelWithCircularDependencyDoesNotCycle() returns (result: Option<Model>)
    ensures result == Some(Model(ContentItemWithSingleRte,
                                 Some("<span>FirstRT</span><span>SecondRT</span><span>FirstRT</span>")))
  {
    var processor := new InlineContentItemsProcessor();
    processor.RegisterTypeResolver(ContentItemWithSingleRte, RichTextInlineResolver);
    var retriever := new CodeFirstModelProvider(processor, SingleRteTypeProvider);
    result := retriever.GetContentItemModel(Rt1, LinkedItemsForItemWithTwoReferencedContentItems);
    assert processor.resolvers == CycleEnv().resolvers;
    assert Env(retriever.typeProvider, processor.resolvers) == CycleEnv();
    MutualCycleResolution();
  }

  method RetrievingContentModelWithItemInlineReferencingItselfDoesNotCycle() returns (result: Option<Model>)
    ensures result == Some(Model(ContentItemWithSingleRte, Some("<span>RT</span><span>RT</span>")))
  {
    var processor := new InlineContentItemsProcessor();
    processor.RegisterTypeResolver(ContentItemWithSingleRte, RichTextInlineResolver);
    var retriever := new CodeFirstModelProvider(processor, SingleRteTypeProvider);
    result := retriever.GetContentItemModel(Rt3, LinkedItemsForItemReferencingItself);
    assert processor.resolvers == CycleEnv().resolvers;
    assert Env(retriever.typeProvider, processor.resolvers) == CycleEnv();
    SelfReferenceResolution();
  }

  /** Whatever else the type provider does, when it has no type for "newType" the
      model provider answers null for rt4. */
  method GetContentItemModelRetrievingContentModelWithUnknownTypeReturnNull(typeProvider: TypeProvider)
    returns (result: Option<Model>)
    requires typeProvider("newType") == None
    ensures result == None
  {
    var processor := new InlineContentItemsProcessor();
    var modelProvider := new CodeFirstModelProvider(processor, typeProvider);
    result := modelProvider.GetContentItemModel(Rt4, LinkedItemsForItemWithTwoReferencedContentItems);
  }
}

# Cycle-safe inline content-item resolution

This project models the code-first model provider of the Kentico Cloud Delivery
.NET SDK together with its inline content-item processor. The provider turns a
content-item payload and the shared index of linked items into a typed model.
Every inline `<object type="application/kenticocloud" data-type="item"
data-codename="X">` marker in a rich-text element is replaced by the rendering
of item X, and X is itself resolved the same way. When the resolver meets an
item that is already being resolved on the current branch, it resolves that item
again "as if there were no inline content items". That rule makes resolution
terminate.

The behaviour is the one fixed by the three scenarios of
`KenticoCloud.Delivery.Tests/CodeFirstModelProviderTests.cs`:

- the mutual cycle rt1 -> rt2 -> rt1, resolving to three spans;
- the self-reference rt3 -> rt3, resolving to two spans;
- the unmapped type `newType`, resolving to null.

Modules:

- `Wrappers`: the optional value that stands for C# null.
- `Content`: payloads (codename, type discriminator, rich-text element), typed
  models, the data handed to a resolver, the resolver type, the linked-items index
  and the type-provider capability.
- `Markup`: the parser step. It turns a rich-text value into text runs and markers.
  It has a canonical serializer. Only one direction of the round trip is proved:
  parsing the serialization of well-formed (`Serializable`) segments gives them
  back. A marker whose closing tag lacks its final `>` is still recognised.
- `Resolution`: the pure, depth-first resolution. A context holds the index, the
  ancestor chain and the suppression flag. `Expand`, `ExpandMarker` and `Bind`
  are mutually recursive. They terminate on the lexicographic measure (suppression
  still off ? 1 : 0, number of indexed codenames not on the chain). This module
  also holds the cycle rule and the splicing lemmas.
- `Acyclic`: a plain recursive expansion with no ancestor chain, and the theorem
  that on an acyclic reference graph the guarded resolution equals it.
- `Processing`: the stateful objects. `InlineContentItemsProcessor` is a class
  whose resolver registry is a `map` field that `RegisterTypeResolver` updates.
  `CodeFirstModelProvider` resolves with the registry as it stands at the call.
- `Scenarios`: the fixtures rt1 to rt4, the `RichTextInlineResolver`, the general
  two-item-cycle and self-cycle lemmas, and the three test methods.

The type provider and the resolver functions are parameters of the model, as
function values. The test fakes become concrete functions.

The root's codename is on the ancestor chain from the start (`RootContext`). The
tests force this: with an empty chain rt3 would render its span three times, and
rt1 would render four spans.

## Model

| member | source | states |
|---|---|---|
| `Markup.Parse` | KenticoCloud.Delivery.Tests/CodeFirstModelProviderTests.cs:103-109 | the segments of a rich-text value are in normal form: text runs are never empty or adjacent, and no extracted codename contains a double quote |
| `Markup.MatchMarker` | KenticoCloud.Delivery.Tests/CodeFirstModelProviderTests.cs:108 | a marker is only recognised where the marker opening starts; recognition always consumes input, and the codename holds no double quote |
| `Markup.FirstQuote` | KenticoCloud.Delivery.Tests/CodeFirstModelProviderTests.cs:108 | the codename ends at the first double quote: the index returned holds one, and no earlier index does |
| `Markup.SkipCloseTag` | KenticoCloud.Delivery.Tests/CodeFirstModelProviderTests.cs:108 | after the codename, `></object>` and `></object` are both consumed in full, and anything else is left as literal text |
| `Markup.MatchMarkerText` | KenticoCloud.Delivery.Tests/CodeFirstModelProviderTests.cs:108 | a marker closed with or without the final `>` yields its codename, and parsing resumes right after it |
| `Markup.ParseText` | KenticoCloud.Delivery.Tests/CodeFirstModelProviderTests.cs:103-109 | literal text in which no marker opens is kept as one text run in front of what follows |
| `Markup.PlainBeforeAngle` | KenticoCloud.Delivery.Tests/CodeFirstModelProviderTests.cs:108 | text holding no marker opening cannot form one with a following marker (the opening has `<` only at its start) |
| `Markup.ParseSerialize` | KenticoCloud.Delivery.Tests/CodeFirstModelProviderTests.cs:132-133 | one direction of the round trip: parsing the canonical serialization of `Serializable` segments (normal form, text runs holding no marker opening, codenames without a double quote) returns them unchanged |
| `Markup.ParseTextThenMarker` | KenticoCloud.Delivery.Tests/CodeFirstModelProviderTests.cs:108 | a text run followed by a marker parses to exactly that run and that codename, including when the closing tag is `</object` without `>` |
| `Resolution.UnvisitedShrinks` | KenticoCloud.Delivery.Tests/CodeFirstModelProviderTests.cs:13-14 | entering an item that is not yet on the chain strictly lowers the number of unvisited indexed items, so resolution terminates |
| `Resolution.GetContentItemModel` | KenticoCloud.Delivery.Tests/CodeFirstModelProviderTests.cs:62-75 | the result is null exactly when the type provider maps the discriminator to no type; otherwise the result is a model of the provided type, with its rich-text property set exactly when the payload has a rich-text element |
| `Resolution.ExpandConcat` | KenticoCloud.Delivery.Tests/CodeFirstModelProviderTests.cs:32 | expansion splices the output of each segment in document order: the expansion of a concatenation is the concatenation of the expansions |
| `Resolution.Expand` | KenticoCloud.Delivery.Tests/CodeFirstModelProviderTests.cs:13-14 | the rich text with each marker replaced by its item's fragment, or by nothing below a cycle hit; no ensures of its own, specified by `ExpandConcat`, `MissingItemDropped`, `SuppressedExpandIsLiteral` and `Acyclic.ExpandAgreesWithPlain` |
| `Resolution.ExpandMarker` | KenticoCloud.Delivery.Tests/CodeFirstModelProviderTests.cs:37-38 | the cycle rule for one marker (an item on the chain is bound with its markers stripped, any other item is pushed and bound); no ensures of its own, specified for a first visit by `Acyclic.MarkerAgreesWithPlain` and `Scenarios.FirstVisitRendersRt`, and for a cycle hit by `CycleReentryStripsMarkers` and `SelfReferenceStripsAtRoot` |
| `Resolution.Bind` | KenticoCloud.Delivery.Tests/CodeFirstModelProviderTests.cs:30-33 | binding to the provided type with the rich-text property expanded; no ensures of its own, its shape is stated by `GetContentItemModel` and its suppressed case by `SuppressedBind` |
| `Resolution.RenderItem` | KenticoCloud.Delivery.Tests/CodeFirstModelProviderTests.cs:82-87 | the resolver dispatch: the fragment of a bound item is what the resolver registered for its model type (line 24) returns on that item and its codename, and is empty when the item did not bind or no resolver is registered for its type; no ensures of its own, described by `CycleReentryStripsMarkers` and `Scenarios.FirstVisitRendersRt` |
| `Resolution.SuppressedExpandIsLiteral` | KenticoCloud.Delivery.Tests/CodeFirstModelProviderTests.cs:13-14 | below a cycle hit nothing is expanded: the expansion is the literal text with every marker removed |
| `Resolution.SuppressedBind` | KenticoCloud.Delivery.Tests/CodeFirstModelProviderTests.cs:13-14 | binding in a suppressed context equals binding "as if there were no inline content items" |
| `Resolution.CycleReentryStripsMarkers` | KenticoCloud.Delivery.Tests/CodeFirstModelProviderTests.cs:13-14 | a marker naming an item already on the ancestor chain renders that item, still bound and still passed to its resolver, with all of its own markers stripped |
| `Resolution.SelfReferenceStripsAtRoot` | KenticoCloud.Delivery.Tests/CodeFirstModelProviderTests.cs:37-38 | the root item counts as being processed, so its marker to itself is a cycle hit at once |
| `Resolution.MissingItemDropped` | KenticoCloud.Delivery.Tests/CodeFirstModelProviderTests.cs:27-30 | a marker whose codename is not in the linked-items index contributes nothing, and the text around it is unaffected |
| `Acyclic.ExpandAgreesWithPlain` | KenticoCloud.Delivery.Tests/CodeFirstModelProviderTests.cs:13-14 | with markers ranked below every ancestor, guarded expansion equals the plain recursive expansion |
| `Acyclic.MarkerAgreesWithPlain` | KenticoCloud.Delivery.Tests/CodeFirstModelProviderTests.cs:13-14 | a marker naming a lower-ranked item is never a cycle hit: the item is fully resolved, as in plain expansion |
| `Acyclic.BindAgreesWithPlain` | KenticoCloud.Delivery.Tests/CodeFirstModelProviderTests.cs:13-14 | outside suppression, with the payload's markers ranked below every ancestor, binding equals the plain binding |
| `Acyclic.ChildBindAgreesWithPlain` | KenticoCloud.Delivery.Tests/CodeFirstModelProviderTests.cs:13-14 | an item a marker pushes is not on the chain, and binding it one level down equals the plain binding with one level of depth less |
| `Acyclic.AcyclicResolutionIsPlain` | KenticoCloud.Delivery.Tests/CodeFirstModelProviderTests.cs:13-14 | on an acyclic reference graph the cycle rule never changes the result: resolution equals full recursive expansion, whether or not the root is among its own linked items |
| `Acyclic.ListedRootResolutionIsPlain` | KenticoCloud.Delivery.Tests/CodeFirstModelProviderTests.cs:13-14 | the same for a root that is listed among its linked items, at any depth no smaller than its rank |
| `Processing.InlineContentItemsProcessor.constructor` | KenticoCloud.Delivery.Tests/CodeFirstModelProviderTests.cs:23 | a new processor has no resolvers registered |
| `Processing.InlineContentItemsProcessor.RegisterTypeResolver` | KenticoCloud.Delivery.Tests/CodeFirstModelProviderTests.cs:24 | the registry maps the type to the new resolver, the last registration wins, and all other entries are unchanged |
| `Processing.CodeFirstModelProvider.constructor` | KenticoCloud.Delivery.Tests/CodeFirstModelProviderTests.cs:25 | the provider keeps the processor and the type provider it is given |
| `Processing.CodeFirstModelProvider.GetContentItemModel` | KenticoCloud.Delivery.Tests/CodeFirstModelProviderTests.cs:30 | the result is the resolution under the processor's current registry, and it is null exactly when the type is unmapped |
| `Scenarios.RichTextInlineResolver` | KenticoCloud.Delivery.Tests/CodeFirstModelProviderTests.cs:82-88 | renders an item as its own RT; no ensures of its own, specified through `RendersOwnRt` by `FirstVisitRendersRt` and `ReentryRendersText` |
| `Scenarios.SingleRteTypeProvider` | KenticoCloud.Delivery.Tests/CodeFirstModelProviderTests.cs:21 | the faked type provider maps every discriminator to the single-RT type; no ensures of its own, used through the fixture lemmas `Rt1Fixture`, `Rt2Fixture` and `Rt3Fixture` |
| `Scenarios.Rt1Fixture` | KenticoCloud.Delivery.Tests/CodeFirstModelProviderTests.cs:90-112 | rt1 is listed under its codename, binds to the single-RT type, and its rich text is the span `FirstRT` then a marker to rt2 |
| `Scenarios.Rt2Fixture` | KenticoCloud.Delivery.Tests/CodeFirstModelProviderTests.cs:114-136 | rt2 is listed under its codename, binds to the single-RT type, and its rich text is the span `SecondRT` then a marker to rt1 |
| `Scenarios.Rt3Fixture` | KenticoCloud.Delivery.Tests/CodeFirstModelProviderTests.cs:144-166 | rt3 is listed under its codename, binds to the single-RT type, and its rich text is the span `RT` then a marker to rt3 |
| `Scenarios.ParseRt1` | KenticoCloud.Delivery.Tests/CodeFirstModelProviderTests.cs:103-109 | rt1's value is the span `FirstRT` and a marker to rt2, despite the missing final `>` |
| `Scenarios.ParseRt2` | KenticoCloud.Delivery.Tests/CodeFirstModelProviderTests.cs:127-134 | rt2's value is the span `SecondRT` and a marker to rt1 |
| `Scenarios.ParseRt3` | KenticoCloud.Delivery.Tests/CodeFirstModelProviderTests.cs:157-163 | rt3's value is the span `RT` and a marker to rt3 itself |
| `Scenarios.ReentryRendersText` | KenticoCloud.Delivery.Tests/CodeFirstModelProviderTests.cs:82-87 | under the resolver that returns an item's own RT, an item re-entered on a cycle renders as its literal text |
| `Scenarios.FirstVisitRendersRt` | KenticoCloud.Delivery.Tests/CodeFirstModelProviderTests.cs:82-87 | under the resolver that returns an item's own RT, an item visited for the first time renders as its own rich text expanded one level down with its codename pushed, or as nothing when it has no rich text |
| `Scenarios.MutualCycle` | KenticoCloud.Delivery.Tests/CodeFirstModelProviderTests.cs:13-33 | for any two items that reference each other, the root resolves to its text, then the other item's text, then its own text again, without looping |
| `Scenarios.SelfCycle` | KenticoCloud.Delivery.Tests/CodeFirstModelProviderTests.cs:37-57 | any item that references itself resolves to its text twice, not three times |
| `Scenarios.MutualCycleResolution` | KenticoCloud.Delivery.Tests/CodeFirstModelProviderTests.cs:27-33 | rt1 with linked items {rt2, rt1} resolves to a single-RT model with RT = `<span>FirstRT</span><span>SecondRT</span><span>FirstRT</span>` |
| `Scenarios.SelfReferenceResolution` | KenticoCloud.Delivery.Tests/CodeFirstModelProviderTests.cs:51-57 | rt3 with linked items {rt3} resolves to a single-RT model with RT = `<span>RT</span><span>RT</span>` |
| `Scenarios.RetrievingContentModelWithCircularDependencyDoesNotCycle` | KenticoCloud.Delivery.Tests/CodeFirstModelProviderTests.cs:15-34 | registering the resolver, building the provider and resolving rt1 yields a model of the provided type with the three-span RT |
| `Scenarios.RetrievingContentModelWithItemInlineReferencingItselfDoesNotCycle` | KenticoCloud.Delivery.Tests/CodeFirstModelProviderTests.cs:39-58 | the same steps for rt3 yield a model of the provided type with the two-span RT |
| `Scenarios.GetContentItemModelRetrievingContentModelWithUnknownTypeReturnNull` | KenticoCloud.Delivery.Tests/CodeFirstModelProviderTests.cs:62-75 | for every type provider that maps `newType` to nothing, resolving rt4 (lines 173-185: discriminator `newType`, no elements) yields null |

## Left out

- Property binding: the property mapper (`IsMatch`) is not modelled. Every model
  has the single rich-text property RT, bound from the payload's one rich-text
  element, which matches the tests, where the mapper always answers true.
- Other element kinds (numbers, dates, multiple choice, taxonomy, assets,
  modular-content lists, URL slugs) and the content-link URL resolver are not
  modelled. None of them takes part in inline-item expansion.
- The `system` fields id, name, sitemap locations and last-modified time are not
  modelled. The element's `modular_content` list is carried but never consulted;
  only markers in the value are expanded.
- The default resolver and the resolver for unretrieved items, passed to the
  processor's constructor, are not modelled. Both are null in every scenario. A
  marker with no registered resolver, or with no linked item, emits nothing.
- The processor and provider implementations are not part of this model. The
  resolver dispatch is taken from the tests. Two outcomes are assumptions: a linked
  item whose type is unmapped emits nothing, and a null RT renders as the empty
  string.
- JSON payload handling (`JToken`), the generic type argument of
  `GetContentItemModel<T>` and the test fakes are not modelled. Payloads are
  datatypes and the fakes are plain functions. The third scenario's faked processor
  is an empty registry, which that scenario never consults.
- General HTML parsing is not modelled. A marker is recognised only where the
  exact marker opening `<object type="application/kenticocloud" data-type="item"
  data-codename="` starts. Its codename runs to the next double quote. Then
  `></object>` or `></object` is consumed if it follows. Any other tail, such as
  further attributes, stays in the output as literal text. All text outside
  markers, markup included, is copied verbatim. An opening with no double quote
  after it is literal text.
- In the fixtures, each rich-text value is written as its text run, then the
  marker opening constant, then the rest of the marker. The characters are those
  of the source values.

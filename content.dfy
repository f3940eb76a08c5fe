/**
 * The content-item payloads the engine consumes and the typed models it produces.
 * Only the parts of a payload the inline-item resolution looks at are kept: the
 * item's codename, its type discriminator and its single rich-text element.
 */
module Content {
  import opened Wrappers

  /** Stable identifier of a content item; also the key of the linked-items index. */
  type Codename = string

  /** Identity of a target model type (the code-first class the payload binds to). */
  type TypeId = string

  /** A rich-text element: its display name, raw value with inline markers, and the
      codenames listed as its modular content. */
  datatype RichTextElement = RichTextElement(name: string, value: string, modularContent: seq<Codename>)

  /** A content-item payload: the `system` fields the engine reads and the rich-text
      element (absent when the payload has none, as for an item with no elements). */
  datatype Payload = Payload(codename: Codename, contentType: string, richText: Option<RichTextElement>)

  /** The typed model bound from a payload: its type and the resolved text of its
      rich-text property (None when no element was bound to it, i.e. C# null). */
  datatype Model = Model(modelType: TypeId, rt: Option<string>)

  /** What a resolver is given: the bound model and the codename it came from. */
  datatype ResolvedItem = ResolvedItem(codename: Codename, item: Model)

  /** A per-type rendering function registered with the inline-items processor. */
  type Resolver = ResolvedItem -> string

  /** The shared index of linked items, by codename. */
  type LinkedItems = map<Codename, Payload>

  /** The type-provider capability: a type discriminator to a model type, or null. */
  type TypeProvider = string -> Option<TypeId>
}

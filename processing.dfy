/**
 * The stateful objects of the engine: the inline-items processor, whose resolver
 * registry is filled in by registration calls, and the code-first model provider
 * that resolves payloads with the processor's registry as it stands.
 */
module Processing {
  import opened Wrappers
  import opened Content
  import Resolution

  class InlineContentItemsProcessor {
    /** One rendering function per model type. */
    var resolvers: map<TypeId, Resolver>

    constructor ()
      ensures resolvers == map[]
    {
      resolvers := map[];
    }

    /** Registers `resolver` for model type `t`. Nothing is validated, and a later
        registration for the same type replaces an earlier one. */
    method RegisterTypeResolver(t: TypeId, resolver: Resolver)
      modifies this
      ensures resolvers == old(resolvers)[t := resolver]
    {
      resolvers := resolvers[t := resolver];
    }
  }

  class CodeFirstModelProvider {
    const processor: InlineContentItemsProcessor
    const typeProvider: TypeProvider

    constructor (processor: InlineContentItemsProcessor, typeProvider: TypeProvider)
      ensures this.processor == processor
      ensures this.typeProvider == typeProvider
    {
      this.processor := processor;
      this.typeProvider := typeProvider;
    }

    /** Resolves `item` against `linkedItems` with the processor's current resolvers;
        null exactly when the type provider has no type for the item. */
    method GetContentItemModel(item: Payload, linkedItems: LinkedItems) returns (r: Option<Model>)
      ensures r == Resolution.GetContentItemModel(item, linkedItems, Resolution.Env(typeProvider, processor.resolvers))
      ensures r.None? <==> typeProvider(item.contentType).None?
    {
      r := Resolution.GetContentItemModel(item, linkedItems, Resolution.Env(typeProvider, processor.resolvers));
    }
  }
}

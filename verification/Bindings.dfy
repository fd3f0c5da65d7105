/** A stream binding as the instance configuration gives it (internal/config/config.go StreamBinding). */
module Bindings {

  datatype EnrichRule = EnrichRule(lookup: string, bind: map<string, string>, into: string)

  /** An empty handler, scope or emit is an absent one. */
  datatype Binding = Binding(stream: string, scope: string, handler: string, emit: string, enrich: seq<EnrichRule>)
}

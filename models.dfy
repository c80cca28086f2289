/**
 * The pricing record of one model, as decoded from the public price table.
 * Every field is optional; a field missing from the JSON object decodes to
 * `None`. Prices are dollars (per token, per pixel, ...), modelled as reals.
 */
module Models {
  import opened Wrappers

  /** Price of a web search, by context size. */
  datatype SearchContextCost = SearchContextCost(
    searchContextSizeHigh: Option<real>,
    searchContextSizeLow: Option<real>,
    searchContextSizeMedium: Option<real>)

  /**
   * The fields the core never inspects: carried with the record so that a
   * kept record is the decoded record unchanged.
   */
  datatype SecondaryFields = SecondaryFields(
    inputCostPerAudioToken: Option<real>,
    outputCostPerReasoningToken: Option<real>,
    cacheCreationInputTokenCost: Option<real>,
    cacheReadInputTokenCost: Option<real>,
    inputCostPerPixel: Option<real>,
    outputCostPerPixel: Option<real>,
    outputCostPerImage: Option<real>,
    codeInterpreterCostPerSession: Option<real>,
    computerUseInputCostPer1kTokens: Option<real>,
    computerUseOutputCostPer1kTokens: Option<real>,
    fileSearchCostPer1kCalls: Option<real>,
    fileSearchCostPerGbPerDay: Option<real>,
    vectorStoreCostPerGbPerDay: Option<real>,
    searchContextCostPerQuery: Option<SearchContextCost>,
    maxInputTokens: Option<int>,
    maxOutputTokens: Option<int>,
    deprecationDate: Option<string>,
    source: Option<string>,
    supportsFunctionCalling: Option<bool>,
    supportsParallelFunctionCalling: Option<bool>,
    supportsVision: Option<bool>,
    supportsAudioInput: Option<bool>,
    supportsAudioOutput: Option<bool>,
    supportsPromptCaching: Option<bool>,
    supportsReasoning: Option<bool>,
    supportsResponseSchema: Option<bool>,
    supportsSystemMessages: Option<bool>,
    supportsWebSearch: Option<bool>,
    supportsAssistantPrefill: Option<bool>,
    supportsPdfInput: Option<bool>,
    supportsToolChoice: Option<bool>,
    supportedRegions: Option<seq<string>>)

  /** `ModelPricing`: the five fields the core reads, and the rest. */
  datatype ModelPricing = ModelPricing(
    inputCostPerToken: Option<real>,
    outputCostPerToken: Option<real>,
    maxTokens: Option<int>,
    litellmProvider: Option<string>,
    mode: Option<string>,
    secondary: SecondaryFields)
}

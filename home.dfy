/**
 * The cost calculator page: the token and cost calculation, the request
 * volume projections, the model picker's search, and the page state set
 * when the price fetch completes.
 */
module Home {
  import opened Wrappers
  import opened Strings
  import opened Models
  import opened Pricing
  import opened Sorting

  /** What the page puts before the text of a failed fetch's error. */
  const FetchErrorPrefix: string := "Failed to load model prices: "

  // ---------------------------------------------------------------------
  // Cost calculation

  /** The six numbers the `calculation` closure yields. */
  datatype Calculation = Calculation(
    inputTokens: nat,
    outputTokens: nat,
    totalTokens: nat,
    inputCost: real,
    outputCost: real,
    totalCost: real)

  /**
   * The `calculation` closure: token counts of the two texts, and their
   * cost at the selected model's per-token prices. `estimateTokens` is the
   * tokenizer; a model with no price record costs nothing, and a missing
   * per-token price counts as 0.
   */
  function Calculate(
    inputText: string,
    outputText: string,
    modelName: string,
    prices: map<string, ModelPricing>,
    estimateTokens: string -> nat): (c: Calculation)
    ensures c.inputTokens == estimateTokens(inputText)
    ensures c.outputTokens == estimateTokens(outputText)
    ensures c.totalTokens == c.inputTokens + c.outputTokens
    ensures c.totalCost == c.inputCost + c.outputCost
    ensures modelName !in prices ==> c.inputCost == 0.0 && c.outputCost == 0.0 && c.totalCost == 0.0
    ensures modelName in prices ==>
              && c.inputCost == prices[modelName].inputCostPerToken.UnwrapOr(0.0) * c.inputTokens as real
              && c.outputCost == prices[modelName].outputCostPerToken.UnwrapOr(0.0) * c.outputTokens as real
  {
    var inputTokens := estimateTokens(inputText);
    var outputTokens := estimateTokens(outputText);
    var totalTokens := inputTokens + outputTokens;
    if modelName in prices then
      var pricing := prices[modelName];
      var inputCost := pricing.inputCostPerToken.UnwrapOr(0.0) * inputTokens as real;
      var outputCost := pricing.outputCostPerToken.UnwrapOr(0.0) * outputTokens as real;
      Calculation(inputTokens, outputTokens, totalTokens, inputCost, outputCost, inputCost + outputCost)
    else
      Calculation(inputTokens, outputTokens, totalTokens, 0.0, 0.0, 0.0)
  }

  /** An unknown model costs nothing, whatever the texts. */
  lemma UnknownModelCostsNothing(
    inputText: string, outputText: string, modelName: string,
    prices: map<string, ModelPricing>, estimateTokens: string -> nat)
    requires modelName !in prices
    ensures var c := Calculate(inputText, outputText, modelName, prices, estimateTokens);
            c.inputCost == 0.0 && c.outputCost == 0.0 && c.totalCost == 0.0
  {
  }

  /** A model without an input price charges only for the output, and vice versa. */
  lemma MissingRateCostsNothing(
    inputText: string, outputText: string, modelName: string,
    prices: map<string, ModelPricing>, estimateTokens: string -> nat)
    requires modelName in prices
    ensures var c := Calculate(inputText, outputText, modelName, prices, estimateTokens);
            && (prices[modelName].inputCostPerToken.None? ==> c.inputCost == 0.0 && c.totalCost == c.outputCost)
            && (prices[modelName].outputCostPerToken.None? ==> c.outputCost == 0.0 && c.totalCost == c.inputCost)
  {
  }

  /** Two empty texts count no tokens and cost nothing, for any price table. */
  lemma EmptyTextsCostNothing(
    modelName: string, prices: map<string, ModelPricing>, estimateTokens: string -> nat)
    requires estimateTokens("") == 0
    ensures Calculate("", "", modelName, prices, estimateTokens)
            == Calculation(0, 0, 0, 0.0, 0.0, 0.0)
  {
  }

  /** With non-negative prices no cost is negative, so neither is any projection. */
  lemma NonNegativeRatesCostNonNegative(
    inputText: string, outputText: string, modelName: string,
    prices: map<string, ModelPricing>, estimateTokens: string -> nat)
    requires modelName in prices ==> prices[modelName].inputCostPerToken.UnwrapOr(0.0) >= 0.0
    requires modelName in prices ==> prices[modelName].outputCostPerToken.UnwrapOr(0.0) >= 0.0
    ensures var c := Calculate(inputText, outputText, modelName, prices, estimateTokens);
            0.0 <= c.inputCost && 0.0 <= c.outputCost && 0.0 <= c.totalCost
  {
  }

  // ---------------------------------------------------------------------
  // Projections

  /** The request volumes the page projects the cost of one request to. */
  const ProjectionVolumes: seq<nat> := [100, 1000, 10000, 100000]

  /** The four projections, from 100 to 100,000 requests. */
  function Projections(totalCost: real): (ps: seq<real>)
    ensures |ps| == |ProjectionVolumes|
    ensures forall i :: 0 <= i < |ps| ==> ps[i] == totalCost * ProjectionVolumes[i] as real
  {
    [totalCost * 100.0, totalCost * 1000.0, totalCost * 10000.0, totalCost * 100000.0]
  }

  /** Each projection is ten times the one before it. */
  lemma ProjectionsStepByTen(totalCost: real)
    ensures forall i :: 0 < i < 4 ==> Projections(totalCost)[i] == 10.0 * Projections(totalCost)[i - 1]
  {
  }

  /** Projections are of the total: those of a sum are the sums of the projections. */
  lemma ProjectionsOfSum(inputCost: real, outputCost: real)
    ensures forall i :: 0 <= i < 4 ==>
              Projections(inputCost + outputCost)[i] == Projections(inputCost)[i] + Projections(outputCost)[i]
  {
  }

  /**
   * The worked example: prices 0.01 and 0.02 per token, 5 input and 3
   * output tokens, give costs 0.05, 0.06 and 0.11, and 110 for 1,000 requests.
   */
  lemma WorkedExample(
    inputText: string, outputText: string, secondary: SecondaryFields, estimateTokens: string -> nat)
    requires estimateTokens(inputText) == 5 && estimateTokens(outputText) == 3
    ensures var prices := map["model-a" := ModelPricing(Some(0.01), Some(0.02), None, None, None, secondary)];
            var c := Calculate(inputText, outputText, "model-a", prices, estimateTokens);
            && c == Calculation(5, 3, 8, 0.05, 0.06, 0.11)
            && Projections(c.totalCost)[1] == 110.0
  {
  }

  // ---------------------------------------------------------------------
  // Model search

  /**
   * Whether `key` is listed for the search text `query`: every key when the
   * lower-cased query is empty, otherwise a key whose lower-cased form
   * contains it.
   */
  predicate MatchesSearch(key: string, query: string) {
    var search := ToLower(query);
    search == [] || Contains(ToLower(key), search)
  }

  /** The key a model name is sorted by: the name itself. */
  function NameKey(name: string): string { name }

  /** An empty search lists every key. */
  lemma EmptySearchMatchesAll(key: string)
    ensures MatchesSearch(key, "")
  {
  }

  /**
   * The empty-search branch agrees with the filter: every lower-cased key
   * contains the empty string, so the search is `contains` of the lower-cased query.
   */
  lemma MatchesSearchIsContains(key: string, query: string)
    ensures MatchesSearch(key, query) <==> Contains(ToLower(key), ToLower(query))
  {
    if ToLower(query) == [] {
      FindEmpty(ToLower(key));
    }
  }

  /** The search ignores ASCII case, in the key and in the query. */
  lemma MatchesSearchIgnoresCase(key: string, query: string)
    ensures MatchesSearch(key, query) == MatchesSearch(key, ToLower(query))
    ensures MatchesSearch(key, query) == MatchesSearch(ToLower(key), query)
  {
    ToLowerIdempotent(query);
    ToLowerIdempotent(key);
  }

  /** A non-empty search lists exactly the keys with an occurrence of the lower-cased query. */
  lemma MatchesSearchIff(key: string, query: string)
    requires ToLower(query) != []
    ensures MatchesSearch(key, query) <==> exists i: nat :: OccursAt(ToLower(key), ToLower(query), i)
  {
    ContainsIff(ToLower(key), ToLower(query));
  }

  /**
   * `filtered_models` of the calculator: the keys of the price table that
   * match the search, sorted ascending. The keys are gathered in the table's
   * arbitrary order, then sorted in place.
   */
  method FilteredModels(modelSearch: string, prices: map<string, ModelPricing>) returns (modelList: seq<string>)
    ensures forall k :: k in modelList <==> k in prices && MatchesSearch(k, modelSearch)
    ensures SortedByKey(modelList, NameKey)
    ensures KeysDistinct(modelList, NameKey)
  {
    var gathered := MatchingKeys(modelSearch, prices);
    var list := new string[|gathered|](i requires 0 <= i < |gathered| => gathered[i]);
    assert list[..] == gathered;
    SortByKey(list, NameKey);
    modelList := list[..];
    PermutationKeepsKeysDistinct(modelList, gathered, NameKey);
    assert forall k :: k in modelList <==> k in multiset(gathered);
  }

  /** The collecting half of `filtered_models`, in the table's arbitrary order. */
  method MatchingKeys(modelSearch: string, prices: map<string, ModelPricing>) returns (gathered: seq<string>)
    ensures forall k :: k in gathered <==> k in prices && MatchesSearch(k, modelSearch)
    ensures KeysDistinct(gathered, NameKey)
  {
    var search := ToLower(modelSearch);
    gathered := [];
    var remaining := prices.Keys;
    while remaining != {}
      invariant remaining <= prices.Keys
      invariant forall k :: k in gathered <==> k in prices && k !in remaining && MatchesSearch(k, modelSearch)
      invariant KeysDistinct(gathered, NameKey)
      decreases remaining
    {
      var key :| key in remaining;
      remaining := remaining - {key};
      // An empty search takes every key; otherwise the key must contain it.
      if search == [] || Contains(ToLower(key), search) {
        gathered := gathered + [key];
      }
    }
  }

  // ---------------------------------------------------------------------
  // Page state

  /** What the page body shows: a spinner, the error, or the calculator. */
  datatype PageView = Spinner | ErrorBanner(message: string) | Content

  /** The message shown for a failed fetch. */
  function FetchErrorMessage(e: FetchError): string {
    FetchErrorPrefix + e.message
  }

  /**
   * The signals `model_prices`, `loading` and `error` that both pages keep,
   * and the update made when the fetch completes.
   */
  class PriceState {
    var modelPrices: map<string, ModelPricing>
    var loading: bool
    var error: Option<string>

    /** The page opens loading, with no error and an empty table. */
    constructor ()
      ensures modelPrices == map[] && loading && error == None
      ensures View() == Spinner
    {
      modelPrices := map[];
      loading := true;
      error := None;
    }

    /** Spinner while loading, then the error if there is one, else the content. */
    function View(): (v: PageView)
      reads this
      ensures v == Spinner <==> loading
      ensures v.ErrorBanner? <==> !loading && error.Some?
      ensures v.ErrorBanner? ==> v.message == error.value
    {
      if loading then Spinner
      else if error.Some? then ErrorBanner(error.value)
      else Content
    }

    /**
     * The fetch effect's completion: loading ends either way; a table
     * replaces the old one wholesale, an error is recorded and leaves the
     * table as it was.
     */
    method FinishFetch(outcome: Result<map<string, ModelPricing>, FetchError>)
      modifies this
      ensures !loading
      ensures outcome.Ok? ==> modelPrices == outcome.value && error == old(error)
      ensures outcome.Err? ==> modelPrices == old(modelPrices) && error == Some(FetchErrorMessage(outcome.error))
    {
      match outcome
      case Ok(prices) =>
        modelPrices := prices;
        loading := false;
      case Err(e) =>
        error := Some(FetchErrorMessage(e));
        loading := false;
    }
  }

  /**
   * Opening a page: its state is created, the fetch runs once on the given
   * response and completes. The page then shows the filtered table, or the
   * error with an empty table.
   */
  method OpenPage(response: Response) returns (state: PriceState)
    ensures fresh(state) && !state.loading
    ensures response.Received? && response.body.JsonObject? ==>
              state.View() == Content && state.modelPrices == KeptPrices(response.body.entries)
    ensures !(response.Received? && response.body.JsonObject?) ==>
              state.View().ErrorBanner? && state.modelPrices == map[]
    ensures response.NetworkFailure? ==>
              state.View() == ErrorBanner(FetchErrorPrefix + response.reason)
  {
    state := new PriceState();
    var outcome := FetchModelPrices(response);
    state.FinishFetch(outcome);
  }
}

/**
 * `fetch_model_prices`: the price table is fetched, its top-level object is
 * parsed, and it is filtered down to the entries usable for chat or
 * completion cost estimates.
 */
module Pricing {
  import opened Wrappers
  import opened Models

  /** The metadata entry of the price table, which describes no model. */
  const SampleSpecKey: string := "sample_spec"

  /**
   * The response body, parsed as a map from string to JSON value. The JSON
   * decoder is not modelled: each value stands for the outcome of decoding it
   * as a `ModelPricing` (`None` when that decode fails).
   */
  datatype Body =
    | JsonObject(entries: map<string, Option<ModelPricing>>)
    | NotJsonObject(reason: string)

  /** What the HTTP request yields: a body, or the transport's error. */
  datatype Response =
    | Received(body: Body)
    | NetworkFailure(reason: string)

  /** The error the fetch propagates with `?`; its text is what the page shows. */
  datatype FetchError =
    | RequestFailed(message: string)
    | ParseFailed(message: string)

  /** The inclusion test: both per-token prices present, mode absent, chat or completion. */
  predicate IsUsable(pricing: ModelPricing) {
    && pricing.inputCostPerToken.Some?
    && pricing.outputCostPerToken.Some?
    && (pricing.mode.None? || pricing.mode.value == "chat" || pricing.mode.value == "completion")
  }

  /** Whether the loop inserts the entry `key` with decode outcome `decoded`. */
  predicate KeepsEntry(key: string, decoded: Option<ModelPricing>) {
    key != SampleSpecKey && decoded.Some? && IsUsable(decoded.value)
  }

  /** The map the loop builds: the kept entries of the document, values unchanged. */
  function KeptPrices(entries: map<string, Option<ModelPricing>>): (kept: map<string, ModelPricing>)
    ensures SampleSpecKey !in kept
    ensures kept.Keys <= entries.Keys
    ensures forall k :: k in kept ==> entries[k] == Some(kept[k]) && IsUsable(kept[k])
    ensures forall k :: k in entries && k != SampleSpecKey && entries[k].Some? && IsUsable(entries[k].value)
              ==> k in kept
  {
    map k | k in entries && KeepsEntry(k, entries[k]) :: entries[k].value
  }

  /**
   * The filter of `fetch_model_prices`. The map is visited in an arbitrary
   * order, as a `HashMap` is; an entry whose decode failed is skipped and
   * the call still succeeds. Only a failed request or a body that is not a
   * JSON object is an error.
   */
  method FetchModelPrices(response: Response) returns (r: Result<map<string, ModelPricing>, FetchError>)
    ensures response.NetworkFailure? ==> r == Err(RequestFailed(response.reason))
    ensures response.Received? && response.body.NotJsonObject? ==> r == Err(ParseFailed(response.body.reason))
    ensures r.Ok? <==> response.Received? && response.body.JsonObject?
    ensures r.Ok? ==> r.value == KeptPrices(response.body.entries)
    ensures r.Ok? ==> SampleSpecKey !in r.value
    ensures r.Ok? ==> forall k :: k in r.value ==> IsUsable(r.value[k])
  {
    if response.NetworkFailure? {
      return Err(RequestFailed(response.reason));
    }
    if response.body.NotJsonObject? {
      return Err(ParseFailed(response.body.reason));
    }
    var allPrices := response.body.entries;
    var filteredPrices: map<string, ModelPricing> := map[];
    var remaining := allPrices.Keys;
    while remaining != {}
      invariant remaining <= allPrices.Keys
      invariant forall k :: k in filteredPrices <==> k in allPrices && k !in remaining && KeepsEntry(k, allPrices[k])
      invariant forall k :: k in filteredPrices ==> allPrices[k] == Some(filteredPrices[k])
      decreases remaining
    {
      var key :| key in remaining;
      remaining := remaining - {key};
      if key == SampleSpecKey {
        continue;
      }
      var decoded := allPrices[key];
      if decoded.Some? {
        var pricing := decoded.value;
        if pricing.inputCostPerToken.Some?
          && pricing.outputCostPerToken.Some?
          && (pricing.mode.None? || pricing.mode.value == "chat" || pricing.mode.value == "completion")
        {
          filteredPrices := filteredPrices[key := pricing];
        }
      }
    }
    assert filteredPrices.Keys == KeptPrices(allPrices).Keys;
    return Ok(filteredPrices);
  }

  /** A record for an embedding model never reaches the table, whatever its prices. */
  lemma EmbeddingModeExcluded(entries: map<string, Option<ModelPricing>>, key: string)
    requires key in entries && entries[key].Some? && entries[key].value.mode == Some("embedding")
    ensures key !in KeptPrices(entries)
  {
  }

  /** Filtering twice keeps the same entries: the filter is idempotent. */
  lemma KeptPricesIdempotent(entries: map<string, Option<ModelPricing>>)
    ensures var once := KeptPrices(entries);
            KeptPrices(map k | k in once :: Some(once[k])) == once
  {
    var once := KeptPrices(entries);
    var again := KeptPrices(map k | k in once :: Some(once[k]));
    assert again.Keys == once.Keys;
  }

  /** The example document: the metadata entry is dropped, the chat model kept. */
  lemma SampleDocument(spec: Option<ModelPricing>, secondary: SecondaryFields)
    ensures var good := ModelPricing(Some(0.1), Some(0.2), None, None, Some("chat"), secondary);
            KeptPrices(map["sample_spec" := spec, "good-model" := Some(good)]) == map["good-model" := good]
  {
    var good := ModelPricing(Some(0.1), Some(0.2), None, None, Some("chat"), secondary);
    var entries := map["sample_spec" := spec, "good-model" := Some(good)];
    assert "good-model" != SampleSpecKey;
    assert KeptPrices(entries).Keys == {"good-model"};
  }
}

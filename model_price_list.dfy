/**
 * The model price list page: the searched and sorted list of price
 * records, the table rows it is shown as, and the count below the table.
 */
module ModelPriceList {
  import opened Wrappers
  import opened Strings
  import opened Models
  import opened Pricing
  import opened Sorting
  import opened Home

  /** A row of the list: the model name and its price record. */
  type Entry = (string, ModelPricing)

  /** The sort key of an entry: its model name. */
  function Name(entry: Entry): string { entry.0 }

  /**
   * `filtered_models` of the price list: the entries of the table whose
   * name matches the search, each with its record unchanged, sorted by
   * name. The entries are gathered in the table's arbitrary order, then
   * sorted in place.
   */
  method FilteredModels(searchQuery: string, prices: map<string, ModelPricing>) returns (modelList: seq<Entry>)
    ensures forall i :: 0 <= i < |modelList| ==>
              && modelList[i].0 in prices
              && prices[modelList[i].0] == modelList[i].1
              && MatchesSearch(modelList[i].0, searchQuery)
    ensures forall k :: k in prices && MatchesSearch(k, searchQuery) ==> (k, prices[k]) in modelList
    ensures SortedByKey(modelList, Name)
    ensures KeysDistinct(modelList, Name)
  {
    var gathered := MatchingEntries(searchQuery, prices);
    var list := new Entry[|gathered|](i requires 0 <= i < |gathered| => gathered[i]);
    assert list[..] == gathered;
    SortByKey(list, Name);
    modelList := list[..];
    PermutationKeepsKeysDistinct(modelList, gathered, Name);
    assert forall e :: e in modelList <==> e in multiset(gathered);
    forall i | 0 <= i < |modelList|
      ensures modelList[i].0 in prices && prices[modelList[i].0] == modelList[i].1
      ensures MatchesSearch(modelList[i].0, searchQuery)
    {
      assert modelList[i] in multiset(modelList);
      assert modelList[i] in gathered;
    }
  }

  /** The collecting half of `filtered_models`, in the table's arbitrary order. */
  method MatchingEntries(searchQuery: string, prices: map<string, ModelPricing>) returns (gathered: seq<Entry>)
    ensures forall e :: e in gathered ==> e.0 in prices && prices[e.0] == e.1 && MatchesSearch(e.0, searchQuery)
    ensures forall k :: k in prices && MatchesSearch(k, searchQuery) ==> (k, prices[k]) in gathered
    ensures KeysDistinct(gathered, Name)
  {
    var search := ToLower(searchQuery);
    gathered := [];
    var remaining := prices.Keys;
    while remaining != {}
      invariant remaining <= prices.Keys
      invariant forall e :: e in gathered ==>
                  e.0 in prices && e.0 !in remaining && prices[e.0] == e.1 && MatchesSearch(e.0, searchQuery)
      invariant forall k :: k in prices && k !in remaining && MatchesSearch(k, searchQuery) ==> (k, prices[k]) in gathered
      invariant KeysDistinct(gathered, Name)
      decreases remaining
    {
      var key :| key in remaining;
      remaining := remaining - {key};
      // An empty search takes every entry; otherwise the name must contain it.
      if search == [] || Contains(ToLower(key), search) {
        gathered := gathered + [(key, prices[key])];
      }
    }
  }

  // ---------------------------------------------------------------------
  // Table display

  /** What a missing name-like field is shown as. */
  const NotAvailable: string := "N/A"

  datatype Row =
    | ModelRow(name: string, inputCost: real, outputCost: real, maxTokens: string, provider: string, mode: string)
    | NoModelsFound

  /**
   * One table row: missing prices show as 0, a missing maximum, provider
   * or mode as "N/A".
   */
  function DisplayRow(entry: Entry): (row: Row)
    ensures row.ModelRow? && row.name == entry.0
    ensures row.inputCost == entry.1.inputCostPerToken.UnwrapOr(0.0)
    ensures row.outputCost == entry.1.outputCostPerToken.UnwrapOr(0.0)
    ensures row.maxTokens == NotAvailable <==> entry.1.maxTokens.None?
    ensures entry.1.maxTokens.Some? ==> row.maxTokens == IntToDecimal(entry.1.maxTokens.value)
    ensures row.provider == entry.1.litellmProvider.UnwrapOr(NotAvailable)
    ensures row.mode == entry.1.mode.UnwrapOr(NotAvailable)
  {
    var (name, pricing) := entry;
    var maxTokens := match pricing.maxTokens
      case Some(t) => IntToDecimal(t)
      case None => NotAvailable;
    assert pricing.maxTokens.Some? ==> IsDigit(maxTokens[0]) || maxTokens[0] == '-';
    ModelRow(
      name,
      pricing.inputCostPerToken.UnwrapOr(0.0),
      pricing.outputCostPerToken.UnwrapOr(0.0),
      maxTokens,
      pricing.litellmProvider.UnwrapOr(NotAvailable),
      pricing.mode.UnwrapOr(NotAvailable))
  }

  /** The table body: one row per entry, or the single "No models found" row. */
  function TableRows(models: seq<Entry>): (rows: seq<Row>)
    ensures models == [] <==> rows == [NoModelsFound]
    ensures models != [] ==> |rows| == |models| && forall i :: 0 <= i < |rows| ==> rows[i] == DisplayRow(models[i])
  {
    if models == [] then [NoModelsFound]
    else
      var rows := seq(|models|, i requires 0 <= i < |models| => DisplayRow(models[i]));
      assert rows[0].ModelRow?;
      rows
  }

  /** The text under the table; the number in it reads back as the list's length. */
  function ShowingText(models: seq<Entry>): (text: string)
    ensures |text| > 15 && text[..8] == "Showing " && text[|text| - 7..] == " models"
    ensures var count := text[8..|text| - 7];
            && (forall i :: 0 <= i < |count| ==> IsDigit(count[i]))
            && DigitsValue(count) == |models|
            && count != [] && (count[0] == '0' ==> count == "0")
  {
    var count := NatToDecimal(|models|);
    var text := "Showing " + count + " models";
    assert text[8..|text| - 7] == count;
    text
  }

  /**
   * A record kept by the fetch shows its real prices (the 0 default never
   * appears) and a mode of "N/A", "chat" or "completion".
   */
  lemma KeptRecordShowsItsPrices(name: string, pricing: ModelPricing)
    requires IsUsable(pricing)
    ensures var row := DisplayRow((name, pricing));
            && row.inputCost == pricing.inputCostPerToken.value
            && row.outputCost == pricing.outputCostPerToken.value
            && row.mode in {NotAvailable, "chat", "completion"}
  {
  }

  /** The row shows exactly as many model rows as the list has entries, and at least one row. */
  lemma TableRowCount(models: seq<Entry>)
    ensures |TableRows(models)| == if models == [] then 1 else |models|
    ensures forall i :: 0 <= i < |TableRows(models)| ==> (TableRows(models)[i].ModelRow? <==> models != [])
  {
  }
}

# LLM token dashboard: verified model of the pricing and cost core

The dashboard is a browser page that estimates how many tokens an LLM prompt
and completion use and what they cost. It fetches LiteLLM's public price table,
keeps the entries that can price a chat or completion request, and displays
token counts, costs and cost projections. A second page lists every kept model,
and the user can search that list. The build script also reads the leptos and
leptos_router versions out of the crate manifest.

This project models four pieces of sequential logic in Dafny and proves their
properties:

- **Price table filter** (`pricing.dfy`, module `Pricing`). `fetch_model_prices`
  skips the `sample_spec` entry and every entry whose decode failed. It keeps a
  record only when both per-token prices are present and its mode is absent,
  `"chat"` or `"completion"`. The source loops over a `HashMap`, so the model
  loops over the key set and picks the next key arbitrarily (`:|`).
- **Cost calculation** (`home.dfy`, module `Home`). This covers the
  `calculation` closure, the four projections, the model picker's search
  (`filtered_models`), and the `loading` / `error` / `model_prices` signals that
  the fetch effect sets. Those signals are the class `Home.PriceState`, which
  both pages use.
- **Price list page** (`model_price_list.dfy`, module `ModelPriceList`). This
  covers its `filtered_models` (pairs of name and record, sorted by name), the
  table rows with their display defaults, and the "Showing N models" count.
- **Version extraction** (`build.dfy`, module `Build`). This is the build
  script's reading of the two versions from the manifest's text.

Supporting modules:

- `strings.dfy` (`Strings`): the Rust `str` operations the code calls, namely
  `find`, `contains`, ASCII `to_lowercase`, the order of `Ord for str`, `lines`
  and decimal `to_string`.
- `sorting.dfy` (`Sorting`): an in-place sort on an array. It stands for
  `slice::sort` and `slice::sort_by`.
- `models.dfy` (`Models`): the `ModelPricing` record. The fields the core never
  reads are grouped into `SecondaryFields`.
- `wrappers.dfy` (`Wrappers`): `Option`, with `unwrap_or`, and `Result`.

Modelling choices:

- The tokenizer is a parameter `estimateTokens: string -> nat`.
- The HTTP response is an input: either a body or a network failure.
- JSON decoding is abstracted. The body is either a JSON object, whose values
  are already decoded to `Option<ModelPricing>`, or not a JSON object.
- Prices are Dafny `real`s, an idealisation of `f64`.

Facts about the code that the model follows:

- `reqwest::get` does not reject a non-2xx status. Such a body fails only
  when it is not a JSON object, which is the `NotJsonObject` case.
- `#[serde(default)]` only fills in fields that are missing or null. A field
  of the wrong type makes the whole entry's decode fail, so the entry is
  dropped. In the model this is a `None` decode outcome.
- A line can hold both `leptos = ` and `leptos_router = `, so both searches
  can pick the same line. What holds is that the two markers never overlap
  (`Build.MarkersNeverOverlap`) and the router marker alone does not match
  (`Build.RouterMarkerIsNotLeptosLine`).

## Model

| member | source | states |
|---|---|---|
| Pricing.FetchModelPrices | src/utils/pricing.rs:4-34 | A network failure and a body that is not a JSON object are the only errors, and each carries its message. Otherwise the result is Ok with exactly the kept entries: no `sample_spec`, and every record usable. A failed entry decode never makes the call fail. |
| Pricing.KeptPrices | src/utils/pricing.rs:13-31 | The loop's result: never holds `sample_spec`; its keys are a subset of the document's keys; each value is the decoded record, unchanged and usable; every decodable, usable key other than `sample_spec` is present. |
| Pricing.IsUsable | src/utils/pricing.rs:21-26 | The inclusion test: both per-token prices present, and the mode absent, `"chat"` or `"completion"`. |
| Pricing.EmbeddingModeExcluded | src/utils/pricing.rs:23-26 | A record whose mode is `"embedding"` is never kept, whatever its prices. |
| Pricing.KeptPricesIdempotent | src/utils/pricing.rs:15-31 | Filtering an already filtered table keeps it exactly as it is. |
| Pricing.SampleDocument | src/utils/pricing.rs:15-31 | For a document holding `sample_spec` and a chat model with both prices, the result holds only the chat model. |
| Home.Calculate | src/pages/home.rs:67-96 | The token counts are the tokenizer's counts, and the total is their sum. The total cost is the sum of the input and output costs. An unknown model costs 0 on every component. For a known model, each component is its rate (0 when missing) times its token count. |
| Home.UnknownModelCostsNothing | src/pages/home.rs:77-86 | A model missing from the price map gives input, output and total cost 0, whatever the texts. |
| Home.MissingRateCostsNothing | src/pages/home.rs:80-82 | A missing per-token rate makes its cost component 0, so the total is the other component. |
| Home.EmptyTextsCostNothing | src/pages/home.rs:72-86 | Two empty texts give 0 tokens and 0 cost for any price map, given that the tokenizer counts 0 for the empty text. |
| Home.NonNegativeRatesCostNonNegative | src/pages/home.rs:79-86 | No cost component is negative when the rates are not negative. |
| Home.Projections | src/pages/home.rs:346-370 | There are four projections, equal to the total cost times 100, 1,000, 10,000 and 100,000. |
| Home.ProjectionsStepByTen | src/pages/home.rs:346-370 | Each projection is ten times the one before it. |
| Home.ProjectionsOfSum | src/pages/home.rs:346-370 | The projections of the total are the sums of the projections of the input and output costs. |
| Home.WorkedExample | src/pages/home.rs:67-96 | With rates 0.01 and 0.02 and token counts 5 and 3, the result is tokens 5/3/8, costs 0.05/0.06/0.11, and 110 for 1,000 requests. |
| Home.EmptySearchMatchesAll | src/pages/home.rs:101-102 | An empty search lists every key. |
| Home.MatchesSearchIgnoresCase | src/pages/home.rs:99-106 | Lower-casing the key or the query never changes whether the key is listed: the search ignores ASCII case. |
| Home.MatchesSearch | src/pages/home.rs:99-108 | The search used by both pages: a key is listed when the lower-cased query is empty, or when the lower-cased key contains it. The same filter sits at src/pages/model_price_list.rs:32-40. |
| Home.MatchesSearchIsContains | src/pages/home.rs:101-106 | The source's separate empty-search branch gives the same answer as filtering with `contains`: for every query, a key is listed exactly when its lower-cased form contains the lower-cased query. |
| Home.MatchesSearchIff | src/pages/home.rs:104-108 | With a non-empty query, a key is listed exactly when its lower-cased form has an occurrence of the lower-cased query. |
| Home.FilteredModels | src/pages/home.rs:98-112 | The result holds exactly the price map's keys that match the search. It is sorted ascending and has no repeated key. |
| Home.MatchingKeys | src/pages/home.rs:99-109 | Before the sort, the gathered list holds exactly the matching keys, each once. |
| Home.FetchErrorMessage | src/pages/home.rs:60 | The message set for a failed fetch: `"Failed to load model prices: "` followed by the error's text. It is the same at src/pages/model_price_list.rs:24. |
| Home.PriceState.constructor | src/pages/home.rs:12-20 | The page opens with an empty map, `loading` true and no error, so it shows the spinner. The price list page does the same at src/pages/model_price_list.rs:11-14. |
| Home.PriceState.View | src/pages/home.rs:138-157 | The page shows the spinner while loading; after that, the error if one is set, and the content otherwise. The price list page does the same at src/pages/model_price_list.rs:69-88. |
| Home.PriceState.FinishFetch | src/pages/home.rs:54-63 | After the fetch, `loading` is false either way. On success the map is replaced wholesale. On failure the map is unchanged and the error is `"Failed to load model prices: "` followed by the error's text. The price list page does the same at src/pages/model_price_list.rs:18-27. |
| Home.OpenPage | src/pages/home.rs:52-65 | After one fetch, a JSON-object body shows the content with the filtered table. Any other outcome shows the error banner and leaves the table empty. |
| ModelPriceList.FilteredModels | src/pages/model_price_list.rs:31-44 | The result holds exactly the (name, record) pairs of the map whose name matches the search, with each record unchanged. It is sorted by name and has no repeated name. |
| ModelPriceList.MatchingEntries | src/pages/model_price_list.rs:32-41 | Before the sort, the gathered list holds exactly the matching pairs, with no name repeated. |
| ModelPriceList.DisplayRow | src/pages/model_price_list.rs:126-147 | Missing prices show as 0. A missing provider or mode shows as `"N/A"`. The max-tokens cell is `"N/A"` exactly when the maximum is missing, and otherwise shows its decimal text. |
| ModelPriceList.TableRows | src/pages/model_price_list.rs:115-151 | An empty list gives exactly the single "No models found" row. Otherwise there is one row per entry, in order. |
| ModelPriceList.ShowingText | src/pages/model_price_list.rs:157 | The count text is `Showing <digits> models`. Its digits read back as the length of the filtered list and have no leading zero. |
| ModelPriceList.KeptRecordShowsItsPrices | src/pages/model_price_list.rs:133-145 | For a record the fetch keeps, the row shows its real prices (the 0 default never appears), and its mode shows as `"N/A"`, `"chat"` or `"completion"`. |
| ModelPriceList.TableRowCount | src/pages/model_price_list.rs:116-150 | The table has max(1, n) rows. They are model rows exactly when the list is not empty. |
| Build.FindLine | build.rs:12 | Gives the index of the first line that contains the marker, or None exactly when no line contains it. |
| Build.TextBeforeQuote | build.rs:15-16 | Gives the text before the first `"`, which therefore contains no `"`. It is None exactly when there is no `"`. |
| Build.VersionInLeptosLine | build.rs:13-16 | The version starts 11 characters after the first `version = "` and runs up to the next `"`, which follows it. It is None exactly when the marker is missing or no `"` follows it. |
| Build.VersionInRouterLine | build.rs:27-30 | The version is the text after the line's first `"` up to the next `"`, which follows it. It is None exactly when the line has no `"`, or none after the first one. |
| Build.LeptosVersion | build.rs:12-17 | Without a line containing `leptos = ` there is no version. Otherwise only the first such line is read, and the version contains no `"`. |
| Build.RouterVersion | build.rs:23-31 | Without a line containing `leptos_router = ` there is no version. Otherwise only the first such line is read, and the version contains no `"`. |
| Build.LeptosVersionAfterMarker | build.rs:13-16 | The line is prefix + `version = "` + version + `"` + suffix, where the marker first occurs right after the prefix and the version has no `"`. |
| Build.RouterVersionBetweenFirstQuotes | build.rs:27-30 | The line is prefix + `"` + version + `"` + suffix, with no `"` in the prefix or in the version. |
| Build.RouterVersionNeedsTwoQuotes | build.rs:27-30 | A router line yields a version exactly when it holds at least two `"`. |
| Build.FirstLeptosLineOnly | build.rs:12-13 | For a manifest of any earlier lines without `leptos = `, then the first `leptos = ` line, then anything: if that line (with any trailing `\r` dropped) lacks `version = "`, no version is emitted, whatever the later lines hold. |
| Build.LeptosLineWithoutVersion | build.rs:12-13 | When the manifest's first `leptos = ` line lacks `version = "`, there is no leptos version. |
| Build.MarkersNeverOverlap | build.rs:12-25 | An occurrence of `leptos = ` and one of `leptos_router = ` in the same line never overlap. |
| Build.RouterMarkerIsNotLeptosLine | build.rs:12-25 | The text `leptos_router = ` does not itself match the `leptos = ` search. |
| Strings.Find | build.rs:13 | `str::find` gives the first index where the needle occurs, or None exactly when the needle occurs nowhere. |
| Strings.Contains | src/pages/home.rs:106 | `str::contains`: the needle is found. |
| Strings.ContainsIff | src/pages/home.rs:106 | `contains` holds exactly when the needle occurs at some index. |
| Strings.FindEmpty | src/pages/home.rs:101-106 | The empty string is found at index 0 of every string. |
| Strings.ToLower | src/pages/home.rs:99 | Lower-casing keeps the length and folds each ASCII capital to its small letter. |
| Strings.ToLowerIdempotent | src/pages/home.rs:99-106 | Lower-cased text has no ASCII capital left, so lower-casing it again changes nothing. |
| Strings.LexLessEq | src/pages/home.rs:110 | The `Ord for str` order compares character by character, and a proper prefix comes first. The sort at src/pages/model_price_list.rs:42 uses it on the names. |
| Strings.LexReflexive | src/pages/home.rs:110 | The string order is reflexive. |
| Strings.LexTotal | src/pages/home.rs:110 | The string order is total. |
| Strings.LexAntisymmetric | src/pages/home.rs:110 | The string order is antisymmetric. |
| Strings.LexTransitive | src/pages/home.rs:110 | The string order is transitive. |
| Strings.Lines | build.rs:12 | No line contains a line break, and an empty text has no lines. |
| Strings.LinesOfOneLine | build.rs:12 | A text without a line break is a single line. |
| Strings.LinesCons | build.rs:12 | A line ended by `\n` is the first line, with a trailing `\r` dropped, and the lines of the rest of the text follow it. |
| Strings.LinesAppend | build.rs:12 | The lines of a text that ends at a line break, followed by more text, are its own lines followed by the lines of the rest. |
| Strings.LinesAround | build.rs:12 | For earlier text ending at a line break, then a line, then more text, the lines are those of the earlier text, then that line with a trailing `\r` dropped, then the lines of the rest. |
| Strings.NatToDecimal | src/pages/model_price_list.rs:157 | The decimal text of a count is non-empty, has no leading zero, and reads back as the count. |
| Strings.IntToDecimal | src/pages/model_price_list.rs:139 | The decimal text of an `i64` is digits, with a leading `-` exactly for a negative number, and reads back as the number. It has no leading zero: `0` is written `"0"`, and no other number's digits start with `0`. |
| Wrappers.Option.UnwrapOr | src/pages/home.rs:80-81 | `unwrap_or`: the held value, or the default when there is none. |
| Models.ModelPricing | src/models.rs:14-89 | The decoded price record: the five fields the core reads, and the others grouped together. |
| Sorting.SortByKey | src/pages/model_price_list.rs:42 | The array ends sorted by key and is a permutation of its old contents. |
| Sorting.SortedByKeyUnique | src/pages/model_price_list.rs:42 | Two key-sorted sequences with distinct keys and the same elements are equal, so the sort's result is fully determined. |
| Sorting.PermutationKeepsKeysDistinct | src/pages/home.rs:110 | A permutation of a sequence with distinct keys also has distinct keys. |

## Left out

- The HTTP request, `response.text()`, and the JSON parser are not modelled. They are library calls. The response is an input, and each entry's decode outcome is an `Option`.
- The tokenizer (`src/utils/tokens.rs`) is not modelled: it is a library byte-pair encoder. It is the `estimateTokens` parameter. `preload_tokenizer` and the lazily built process-wide instance are concurrency and initialisation concerns.
- Debounce timers, `Effect`s and `spawn_local` are not modelled, because they are about scheduling. The debounced texts, the selected model and the search query are arguments of `Home.Calculate` and the `FilteredModels` methods, not fields of `Home.PriceState`.
- `f64` rounding is not modelled, and neither is `format!` precision (`{:.6}`, `{:.4}`, `{:.2}`, `{:.8}`). Costs are reals, and the table rows hold the numbers, not their formatted text.
- `Home.Calculate`: token counts are unbounded `nat`s, so the `usize` addition is not checked for wrap-around. Real counts are far below the limit.
- `Models.ModelPricing`: `max_tokens` and the other integer fields are `int`, not bounded to the `i64` range.
- `Strings.ToLower`: only ASCII letters are folded. Rust's `to_lowercase` also folds the rest of Unicode.
- `Sorting.SortByKey`: the library sort is replaced by an insertion sort proved against the same contract (sorted and a permutation). The keys are distinct, so `Sorting.SortedByKeyUnique` shows the result is the same.
- The view markup is not modelled, because it is UI. That covers the model details card on the calculator page, the option list built from `filtered_models`, `src/pages/info.rs` and the routing in `src/main.rs`.
- `src/pages/mod.rs` and `src/utils/mod.rs` are not modelled: they only re-export.
- The build script's environment variable, file read and `println!` output are not modelled, because they are I/O. Each version is a function from the manifest's text to an optional string.
- Rust slices strings by byte offset, while the model indexes characters. Every marker searched for is ASCII, so both give the same text.

# grafana-openai-monitoring handlers, modelled in Dafny

This project models the two pure routines of the monitoring library's
handlers module, `grafana_openai_monitoring/__handlers.py`. It proves
what they do.

- **Endpoint check** (`__check`): five settings are required, the metrics
  URL must contain `api/prom`, and a Grafana Cloud Prometheus URL is
  rewritten to the Influx line-protocol push URL of the same stack. One
  trailing `/` is then dropped from each URL.
- **Cost model** (`__calculate_cost`): a fixed price table of 34 models.
  An exact key match is used first. Failing that, the longest key that
  occurs in the model name is used. A name with no matching key costs 0.
  The cost is linear in the prompt and sampled token counts.

Files:

- `wrappers.dfy`: `Option` and `Result`.
- `strings.dfy`: the Python string operations the handlers use, over
  `seq<char>`. These are `in` (`Contains`), `endswith` (`EndsWith`) and
  `str.replace` (`ReplaceAll`: all non-overlapping occurrences, scanned
  left to right).
- `endpoint_check.dfy`: `__check`.
- `cost_model.dfy`: the price table, the lookup rule and the cost formula.

A setting is an `Option<string>`. Python's truthiness test (`all([...])`)
treats `None` and `""` as missing, and `Provided` does the same. The price
dictionary is an ordered sequence of (key, prices) pairs in source order,
because the tie-break depends on that order. Prices are exact reals in
dollars per 1000 tokens.

Two behaviours of the source are easy to miss, and the model keeps both:

- A model name that is not itself a key is still priced when some key
  occurs inside it. The longest such key is used.
- `__calculate_cost` returns a single number, the total cost. It does not
  split the cost into prompt and sampled parts.

## Model

| member | source | states |
|---|---|---|
| Strings.Contains | grafana_openai_monitoring/__handlers.py:36 | `sub in s` holds exactly when `sub` occurs in `s` at some index (true for the empty `sub`) |
| Strings.ReplaceAllAtFirstOccurrence | grafana_openai_monitoring/__handlers.py:41-46 | `str.replace` keeps everything before the leftmost occurrence, puts the replacement in its place and resumes scanning after it. With ReplaceAllAbsent this pins down `ReplaceAll` for every non-empty pattern |
| Strings.ReplaceAllAbsent | grafana_openai_monitoring/__handlers.py:45-46 | replacing a substring that does not occur returns the string unchanged |
| Strings.ReplaceAllIntroduces | grafana_openai_monitoring/__handlers.py:41-42 | when a non-empty pattern occurs, its replacement occurs in the result (a Prometheus URL gains `influx`) |
| Strings.ReplaceAllSplit | grafana_openai_monitoring/__handlers.py:41-46 | in a string holding the pattern once, `str.replace` swaps just that occurrence and keeps the text before and after it |
| Strings.EndsWith | grafana_openai_monitoring/__handlers.py:50-51 | `s.endswith('/')` holds exactly when `s` is some string followed by `/` |
| EndpointCheck.Provided | grafana_openai_monitoring/__handlers.py:30 | a setting is truthy exactly when it is neither `None` nor `""` |
| EndpointCheck.AllProvided | grafana_openai_monitoring/__handlers.py:30 | `all([...])` over the five settings: every one of them is truthy |
| EndpointCheck.TrimTrailingSlash | grafana_openai_monitoring/__handlers.py:49-52 | the result is the input, or the input minus one final `/`; it is the input exactly when the input does not end in `/` |
| EndpointCheck.RewriteMetricsUrl | grafana_openai_monitoring/__handlers.py:40-46 | a URL without `prometheus` is unchanged. A URL with it becomes the unconditional chain of the three replacements, so the `-us-central1` test has no effect |
| EndpointCheck.TrimRemovesOneSlash | grafana_openai_monitoring/__handlers.py:49-52 | only one slash is removed: `x//` becomes `x/` |
| EndpointCheck.Check | grafana_openai_monitoring/__handlers.py:28-52 | a missing or empty setting gives the missing-parameter error. With all settings present, a metrics URL without `api/prom` gives the format error. Otherwise the call succeeds. The logs URL comes back only trimmed. A metrics URL without `prometheus` comes back only trimmed. A metrics URL with `prometheus` comes back as the trimmed result of the three replacements |
| EndpointCheck.UsCentralExample | grafana_openai_monitoring/__handlers.py:28-52 | `https://prometheus-us-central1.grafana.net/api/prom/` passes the check and becomes `https://influx-prod-06-prod-us-central-0.grafana.net/api/v1/push/influx/write`. The logs URL `l/` becomes `l` |
| CostModel.TableWellFormed | grafana_openai_monitoring/__handlers.py:58-104 | the table has the 34 entries of the price dictionary, all with non-negative prices |
| CostModel.TableKeysDistinct | grafana_openai_monitoring/__handlers.py:58-104 | no key occurs twice in the table, as in a dict literal |
| CostModel.TableOwnPrices | grafana_openai_monitoring/__handlers.py:58-108 | a model name equal to any table key is priced with that key's own prices |
| CostModel.KeyIndex | grafana_openai_monitoring/__handlers.py:107-108 | `model in prices` fails exactly when no key equals the name; otherwise the result is the position of that key |
| CostModel.MatchingKeys | grafana_openai_monitoring/__handlers.py:111 | the filtered keys are exactly the table keys occurring in the model name |
| CostModel.FirstLongest | grafana_openai_monitoring/__handlers.py:114 | the stable descending sort by length puts first an entry of maximal length that is strictly longer than every earlier entry |
| CostModel.LongestMatch | grafana_openai_monitoring/__handlers.py:110-118 | there is no match exactly when no key occurs in the name; a match is a table key occurring in the name |
| CostModel.Lookup | grafana_openai_monitoring/__handlers.py:106-118 | the name is unpriced exactly when no key occurs in it; otherwise the prices are those of a key that occurs in it |
| CostModel.FirstLongestExists | grafana_openai_monitoring/__handlers.py:111-115 | when some key occurs in the name, there is a first longest matching key |
| CostModel.FirstLongestUnique | grafana_openai_monitoring/__handlers.py:111-115 | the first longest matching key is unique |
| CostModel.LongestMatchIsFirstLongest | grafana_openai_monitoring/__handlers.py:111-115 | filter-then-stable-sort picks exactly the first longest matching key in table order |
| CostModel.ExactKeyIsFirstLongest | grafana_openai_monitoring/__handlers.py:107-115 | a name equal to a key makes that key the first longest match, so the exact branch agrees with the longest-match rule |
| CostModel.LookupIsFirstLongest | grafana_openai_monitoring/__handlers.py:106-115 | the prices used are those of the first longest key occurring in the name |
| CostModel.LookupExactKey | grafana_openai_monitoring/__handlers.py:107-108 | the exact-match branch gives the key's own prices. It never disagrees with the longest-match rule, because no key longer than the name can occur in it |
| CostModel.PricedCost | grafana_openai_monitoring/__handlers.py:121-123 | the linear cost formula is never negative for non-negative prices and token counts, and is 0 for zero tokens |
| CostModel.Cost | grafana_openai_monitoring/__handlers.py:106-123 | an unpriced name costs 0; non-negative prices and token counts give a non-negative cost |
| CostModel.CalculateCost | grafana_openai_monitoring/__handlers.py:56-123 | `__calculate_cost` over the source's table is 0 for a name no key occurs in, and never negative for non-negative token counts. CostOfSelected gives its value for a priced name |
| CostModel.CostOfSelected | grafana_openai_monitoring/__handlers.py:121-123 | a priced name costs prompt/1000 × input price + sampled/1000 × output price of the selected key |
| CostModel.CostUnpriced | grafana_openai_monitoring/__handlers.py:116-118 | a name no key occurs in costs 0 for any token counts |
| CostModel.CostOfNoTokens | grafana_openai_monitoring/__handlers.py:121-123 | zero tokens cost 0 |
| CostModel.CostMonotone | grafana_openai_monitoring/__handlers.py:121-123 | with non-negative prices the cost never decreases when either token count grows |
| CostModel.CostAdditive | grafana_openai_monitoring/__handlers.py:121-123 | the cost of summed token counts is the sum of the costs |
| CostModel.SplitIsFirstLongest | grafana_openai_monitoring/__handlers.py:111-115 | an entry that occurs in the name is selected when every earlier matching key is shorter and no later matching key is longer |
| CostModel.TurboExample | grafana_openai_monitoring/__handlers.py:80-123 | `gpt-4-turbo` with 500/200 tokens costs 0.011, and with 1000/1000 tokens costs 0.04 |
| CostModel.DatedNameExample | grafana_openai_monitoring/__handlers.py:66-115 | `gpt-4o-mini-2024-07-18` is priced as `gpt-4o-mini`, not as `gpt-4o` or `gpt-4` |
| CostModel.TieExample | grafana_openai_monitoring/__handlers.py:92-115 | `babbage-002-davinci-002` holds two longest keys of equal length and is priced as the earlier table entry `davinci-002` |
| CostModel.UnpricedExample | grafana_openai_monitoring/__handlers.py:116-118 | `llama-3` matches no key and costs 0 |

## Left out

- `__send_logs` and `__send_metrics` (`grafana_openai_monitoring/__handlers.py:126-150`): these are HTTP POSTs through `requests`, with errors sent to the logger. They are network I/O into a foreign library.
- Logger setup (`grafana_openai_monitoring/__handlers.py:21-25`): this is library configuration with no behaviour to state.
- CostModel.Cost: computes in exact reals. It does not model the floating-point rounding of Python's `/` and `*`, so the source's float result can differ in its last bits (for example, it need not be exactly 0.011).
- CostModel.Cost: the unpriced branch returns the int `0` in the source. Here it is the real `0.0`, and the distinction is not kept.
- Arguments of other types are not modelled. This covers non-string URLs, model names that are not strings, and token counts that are not integers, which Python would accept or reject at run time. Token counts are `int`.
- A call-interception wrapper, request/response extraction and metric and log formatters are not part of this model. None of them appears in the handlers module.
- Duplicate dictionary keys: `KeyIndex` takes the first position of a key. A dict literal keeps the last value of a repeated key instead. The table has no repeated keys (TableKeysDistinct), so the two agree on it.

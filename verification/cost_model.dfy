/**
 * The cost model of the handlers module: a fixed price table, the rule that
 * picks the table entry for a model name, and the linear cost formula.
 * Prices are exact reals (dollars per 1000 tokens), not floating point.
 */
module CostModel {
  import opened Wrappers
  import opened Strings

  /** Dollars per 1000 prompt tokens and per 1000 sampled tokens. */
  datatype Prices = Prices(prompt: real, sampled: real)

  /** The price dictionary as its ordered list of (key, prices) entries. */
  type PriceTable = seq<(string, Prices)>

  predicate NonNegativePrices(t: PriceTable)
  {
    forall i :: 0 <= i < |t| ==> t[i].1.prompt >= 0.0 && t[i].1.sampled >= 0.0
  }

  predicate HasKey(t: PriceTable, key: string)
  {
    exists i :: 0 <= i < |t| && t[i].0 == key
  }

  /** GPT-4.1 models. */
  const Gpt41Prices: PriceTable := [
    ("gpt-4.1", Prices(0.002, 0.008)),
    ("gpt-4.1-mini", Prices(0.0004, 0.0016)),
    ("gpt-4.1-nano", Prices(0.0001, 0.0004)),
    ("gpt-4.5-preview", Prices(0.075, 0.15))
  ]

  /** GPT-4o models. */
  const Gpt4oPrices: PriceTable := [
    ("gpt-4o", Prices(0.0025, 0.01)),
    ("gpt-4o-mini", Prices(0.00015, 0.0006))
  ]

  /** o-series models. */
  const OSeriesPrices: PriceTable := [
    ("o1", Prices(0.015, 0.06)),
    ("o1-pro", Prices(0.15, 0.6)),
    ("o3", Prices(0.01, 0.04)),
    ("o3-mini", Prices(0.0011, 0.0044)),
    ("o1-mini", Prices(0.0011, 0.0044)),
    ("o4-mini", Prices(0.0011, 0.0044))
  ]

  /** GPT-4 models. */
  const Gpt4Prices: PriceTable := [
    ("gpt-4", Prices(0.03, 0.06)),
    ("gpt-4-32k", Prices(0.06, 0.12)),
    ("gpt-4-turbo", Prices(0.01, 0.03)),
    ("gpt-4-turbo-2024-04-09", Prices(0.01, 0.03)),
    ("gpt-4-0613", Prices(0.03, 0.06))
  ]

  /** GPT-3.5 models. */
  const Gpt35Prices: PriceTable := [
    ("gpt-3.5-turbo", Prices(0.0005, 0.0015)),
    ("gpt-3.5-turbo-0125", Prices(0.0005, 0.0015)),
    ("gpt-3.5-turbo-16k", Prices(0.003, 0.004)),
    ("gpt-3.5-turbo-16k-0613", Prices(0.003, 0.004)),
    ("gpt-3.5-turbo-instruct", Prices(0.0015, 0.002))
  ]

  /** Legacy models. */
  const LegacyPrices: PriceTable := [
    ("davinci-002", Prices(0.002, 0.002)),
    ("babbage-002", Prices(0.0004, 0.0004)),
    ("ada", Prices(0.0004, 0.0004)),
    ("text-ada-001", Prices(0.0004, 0.0004)),
    ("babbage", Prices(0.0004, 0.0004)),
    ("text-babbage-001", Prices(0.0004, 0.0004)),
    ("curie", Prices(0.0020, 0.0020)),
    ("text-curie-001", Prices(0.0020, 0.0020)),
    ("davinci", Prices(0.0020, 0.0020)),
    ("text-davinci-001", Prices(0.0020, 0.0020)),
    ("text-davinci-002", Prices(0.0020, 0.0020)),
    ("text-davinci-003", Prices(0.0020, 0.0020))
  ]

  /** The table of the handlers module, in its source order. */
  const Table: PriceTable :=
    Gpt41Prices + Gpt4oPrices + OSeriesPrices + Gpt4Prices + Gpt35Prices + LegacyPrices

  lemma TableWellFormed()
    ensures |Table| == 34
    ensures NonNegativePrices(Table)
  {
  }

  /**
   * `key in prices` and `prices[key]`: the position of `key` in the table.
   * The first position is taken; the keys of a dict literal are distinct, so
   * there is only one.
   */
  function KeyIndex(t: PriceTable, key: string): (r: Option<nat>)
    ensures r.None? <==> !HasKey(t, key)
    ensures r.Some? ==> r.value < |t| && t[r.value].0 == key
                        && forall j :: 0 <= j < r.value ==> t[j].0 != key
  {
    if t == [] then None
    else if t[0].0 == key then Some(0)
    else
      match KeyIndex(t[1..], key)
      case None => None
      case Some(i) => Some(i + 1)
  }

  /**
   * `[m for m in prices.keys() if m in model]`: the keys occurring in `model`.
   * The body keeps table order; which key the sort then picks is stated
   * by LongestMatchIsFirstLongest.
   */
  function MatchingKeys(t: PriceTable, model: string): (ms: seq<string>)
    ensures forall k :: k in ms ==> Contains(model, k) && HasKey(t, k)
    ensures forall i :: 0 <= i < |t| && Contains(model, t[i].0) ==> t[i].0 in ms
  {
    if t == [] then []
    else
      var rest := MatchingKeys(t[1..], model);
      assert forall k :: HasKey(t[1..], k) ==> HasKey(t, k) by {
        forall k | HasKey(t[1..], k) ensures HasKey(t, k) {
          var i :| 0 <= i < |t[1..]| && t[1..][i].0 == k;
          assert t[i + 1].0 == k;
        }
      }
      assert forall i :: 1 <= i < |t| ==> t[i].0 == t[1..][i - 1].0;
      if Contains(model, t[0].0) then [t[0].0] + rest else rest
  }

  /**
   * `sorted(ms, key=len, reverse=True)[0]`: the position of a longest entry.
   * Python's sort is stable, also in reverse, so among entries of equal
   * length the earliest one comes first.
   */
  function FirstLongest(ms: seq<string>): (i: nat)
    requires ms != []
    ensures i < |ms|
    ensures forall j :: 0 <= j < |ms| ==> |ms[j]| <= |ms[i]|
    ensures forall j :: 0 <= j < i ==> |ms[j]| < |ms[i]|
  {
    if |ms| == 1 then 0
    else
      var j := FirstLongest(ms[1..]);
      assert forall k :: 1 <= k < |ms| ==> ms[k] == ms[1..][k - 1];
      if |ms[0]| >= |ms[1..][j]| then 0 else j + 1
  }

  /** The key chosen when the model name is not itself a key. */
  function LongestMatch(t: PriceTable, model: string): (r: Option<string>)
    ensures r.None? <==> forall i :: 0 <= i < |t| ==> !Contains(model, t[i].0)
    ensures r.Some? ==> Contains(model, r.value) && HasKey(t, r.value)
  {
    var ms := MatchingKeys(t, model);
    if ms == [] then None
    else
      assert ms[0] in ms;
      Some(ms[FirstLongest(ms)])
  }

  /**
   * The prices used for `model`: those of the exact key if there is one,
   * otherwise those of the longest key occurring in `model`; None when no
   * key occurs in it.
   */
  function Lookup(t: PriceTable, model: string): (r: Option<Prices>)
    ensures r.None? <==> forall i :: 0 <= i < |t| ==> !Contains(model, t[i].0)
    ensures r.Some? ==> exists i :: 0 <= i < |t| && Contains(model, t[i].0) && r.value == t[i].1
  {
    match KeyIndex(t, model)
    case Some(i) =>
      ContainsSelf(model);
      Some(t[i].1)
    case None =>
      match LongestMatch(t, model)
      case None => None
      case Some(key) =>
        var i := KeyIndex(t, key).value;
        Some(t[i].1)
  }

  /** `(prompt_tokens / 1000) * prompt_price + (sampled_tokens / 1000) * sampled_price`, in exact arithmetic. */
  function PricedCost(p: Prices, promptTokens: int, sampledTokens: int): (r: real)
    ensures p.prompt >= 0.0 && p.sampled >= 0.0 && promptTokens >= 0 && sampledTokens >= 0 ==> r >= 0.0
    ensures promptTokens == 0 && sampledTokens == 0 ==> r == 0.0
  {
    (promptTokens as real / 1000.0) * p.prompt + (sampledTokens as real / 1000.0) * p.sampled
  }

  /** The cost of a call: the priced cost of the selected prices, or 0 for an unpriced model. */
  function Cost(t: PriceTable, model: string, promptTokens: int, sampledTokens: int): (r: real)
    ensures Lookup(t, model).None? ==> r == 0.0
    ensures NonNegativePrices(t) && promptTokens >= 0 && sampledTokens >= 0 ==> r >= 0.0
  {
    match Lookup(t, model)
    case None => 0.0
    case Some(p) => PricedCost(p, promptTokens, sampledTokens)
  }

  /**
   * `__calculate_cost` over the module's own table: 0 for a name no key
   * occurs in, and never negative for non-negative token counts.
   */
  function CalculateCost(model: string, promptTokens: int, sampledTokens: int): (r: real)
    ensures (forall i :: 0 <= i < |Table| ==> !Contains(model, Table[i].0)) ==> r == 0.0
    ensures promptTokens >= 0 && sampledTokens >= 0 ==> r >= 0.0
  {
    TableWellFormed();
    Cost(Table, model, promptTokens, sampledTokens)
  }

  /**
   * Entry `i` is the one the source's rule selects: its key occurs in `model`,
   * no key occurring in `model` is longer, and every earlier key occurring in
   * `model` is strictly shorter.
   */
  predicate IsFirstLongest(t: PriceTable, model: string, i: int)
  {
    && 0 <= i < |t|
    && Contains(model, t[i].0)
    && (forall j :: 0 <= j < |t| && Contains(model, t[j].0) ==> |t[j].0| <= |t[i].0|)
    && (forall j :: 0 <= j < i && Contains(model, t[j].0) ==> |t[j].0| < |t[i].0|)
  }

  /** At most one entry is selected. */
  lemma FirstLongestUnique(t: PriceTable, model: string, i: int, k: int)
    requires IsFirstLongest(t, model, i) && IsFirstLongest(t, model, k)
    ensures i == k
  {
  }

  /** Some entry is selected whenever some key occurs in the model name. */
  lemma {:induction false} FirstLongestExists(t: PriceTable, model: string)
    requires exists j :: 0 <= j < |t| && Contains(model, t[j].0)
    ensures exists i :: IsFirstLongest(t, model, i)
  {
    var rest := t[1..];
    assert forall j :: 1 <= j < |t| ==> t[j] == rest[j - 1];
    if exists j :: 0 <= j < |rest| && Contains(model, rest[j].0) {
      FirstLongestExists(rest, model);
      var k :| IsFirstLongest(rest, model, k);
      if Contains(model, t[0].0) && |t[0].0| >= |rest[k].0| {
        assert IsFirstLongest(t, model, 0);
      } else {
        assert IsFirstLongest(t, model, k + 1);
      }
    } else {
      assert IsFirstLongest(t, model, 0);
    }
  }

  /**
   * The filter-then-stable-sort of the source picks exactly the first longest
   * matching key.
   */
  lemma {:induction false} LongestMatchIsFirstLongest(t: PriceTable, model: string, i: int)
    requires IsFirstLongest(t, model, i)
    ensures LongestMatch(t, model) == Some(t[i].0)
  {
    var rest := t[1..];
    var ms' := MatchingKeys(rest, model);
    if i == 0 {
      if ms' != [] {
        var k := ms'[FirstLongest(ms')];
        assert k in ms';
        var j :| 0 <= j < |rest| && rest[j].0 == k;
        assert t[j + 1].0 == k;
        FirstLongestCons(t[0].0, ms');
      }
    } else {
      ShiftFirstLongest(t, model, i);
      LongestMatchIsFirstLongest(rest, model, i - 1);
      if Contains(model, t[0].0) {
        assert |t[0].0| < |t[i].0|;
        FirstLongestCons(t[0].0, ms');
      }
    }
  }

  /** Entry `i > 0` selected in a table is entry `i - 1` selected in its tail. */
  lemma ShiftFirstLongest(t: PriceTable, model: string, i: int)
    requires 0 < i && IsFirstLongest(t, model, i)
    ensures IsFirstLongest(t[1..], model, i - 1)
  {
    assert forall j :: 1 <= j < |t| ==> t[j] == t[1..][j - 1];
  }

  /** Stable selection over an entry followed by more entries: the new entry wins ties. */
  lemma FirstLongestCons(x: string, ms: seq<string>)
    requires ms != []
    ensures ([x] + ms)[FirstLongest([x] + ms)] == (if |x| >= |ms[FirstLongest(ms)]| then x else ms[FirstLongest(ms)])
  {
    assert ([x] + ms)[1..] == ms;
  }

  /**
   * An exact key is also the first longest matching key, so the source's
   * exact-match branch agrees with its longest-match rule: no longer key can
   * occur inside a name that equals a key.
   */
  lemma ExactKeyIsFirstLongest(t: PriceTable, model: string, i: int)
    requires 0 <= i < |t| && t[i].0 == model
    requires forall j :: 0 <= j < i ==> t[j].0 != model
    ensures IsFirstLongest(t, model, i)
  {
    ContainsSelf(model);
    forall j | 0 <= j < |t| && Contains(model, t[j].0)
      ensures |t[j].0| <= |model|
      ensures j < i ==> |t[j].0| < |model|
    {
      ContainedLength(model, t[j].0);
    }
  }

  /**
   * The lookup rule in one statement: the prices used are those of the first
   * longest key occurring in the model name.
   */
  lemma LookupIsFirstLongest(t: PriceTable, model: string, i: int)
    requires IsFirstLongest(t, model, i)
    ensures Lookup(t, model) == Some(t[i].1)
  {
    match KeyIndex(t, model)
    case Some(e) =>
      ExactKeyIsFirstLongest(t, model, e);
      FirstLongestUnique(t, model, e, i);
    case None =>
      LongestMatchIsFirstLongest(t, model, i);
      var e := KeyIndex(t, t[i].0).value;
      assert t[e].0 == t[i].0;
  }

  /** An exact key wins, with that key's own prices. */
  lemma LookupExactKey(t: PriceTable, model: string, i: int)
    requires 0 <= i < |t| && t[i].0 == model
    requires forall j :: 0 <= j < i ==> t[j].0 != model
    ensures Lookup(t, model) == Some(t[i].1)
  {
    ExactKeyIsFirstLongest(t, model, i);
    LookupIsFirstLongest(t, model, i);
  }

  /** A priced model costs its prices times the token counts in thousands. */
  lemma CostOfSelected(t: PriceTable, model: string, i: int, promptTokens: int, sampledTokens: int)
    requires IsFirstLongest(t, model, i)
    ensures Cost(t, model, promptTokens, sampledTokens) == PricedCost(t[i].1, promptTokens, sampledTokens)
  {
    LookupIsFirstLongest(t, model, i);
  }

  /** A model no key occurs in costs 0, whatever the token counts. */
  lemma CostUnpriced(t: PriceTable, model: string, promptTokens: int, sampledTokens: int)
    requires forall i :: 0 <= i < |t| ==> !Contains(model, t[i].0)
    ensures Cost(t, model, promptTokens, sampledTokens) == 0.0
  {
  }

  /** No tokens, no cost. */
  lemma CostOfNoTokens(t: PriceTable, model: string)
    ensures Cost(t, model, 0, 0) == 0.0
  {
  }

  /** With non-negative prices the cost never decreases as either token count grows. */
  lemma CostMonotone(t: PriceTable, model: string, p0: int, s0: int, p1: int, s1: int)
    requires NonNegativePrices(t)
    requires p0 <= p1 && s0 <= s1
    ensures Cost(t, model, p0, s0) <= Cost(t, model, p1, s1)
  {
    match Lookup(t, model)
    case None =>
    case Some(p) =>
      var i :| 0 <= i < |t| && Contains(model, t[i].0) && p == t[i].1;
      PricedCostMonotone(p, p0, s0, p1, s1);
  }

  lemma PricedCostMonotone(p: Prices, p0: int, s0: int, p1: int, s1: int)
    requires p.prompt >= 0.0 && p.sampled >= 0.0
    requires p0 <= p1 && s0 <= s1
    ensures PricedCost(p, p0, s0) <= PricedCost(p, p1, s1)
  {
    var dp := (p1 - p0) as real / 1000.0;
    var ds := (s1 - s0) as real / 1000.0;
    assert dp * p.prompt >= 0.0 && ds * p.sampled >= 0.0;
    assert (p1 as real / 1000.0) * p.prompt == (p0 as real / 1000.0) * p.prompt + dp * p.prompt;
    assert (s1 as real / 1000.0) * p.sampled == (s0 as real / 1000.0) * p.sampled + ds * p.sampled;
  }

  /** The cost is additive in the token counts: two calls cost what one call with the summed counts costs. */
  lemma CostAdditive(t: PriceTable, model: string, p0: int, s0: int, p1: int, s1: int)
    ensures Cost(t, model, p0, s0) + Cost(t, model, p1, s1) == Cost(t, model, p0 + p1, s0 + s1)
  {
    match Lookup(t, model)
    case None =>
    case Some(p) => PricedCostAdditive(p, p0, s0, p1, s1);
  }

  lemma PricedCostAdditive(p: Prices, p0: int, s0: int, p1: int, s1: int)
    ensures PricedCost(p, p0, s0) + PricedCost(p, p1, s1) == PricedCost(p, p0 + p1, s0 + s1)
  {
    assert ((p0 + p1) as real / 1000.0) * p.prompt
      == (p0 as real / 1000.0) * p.prompt + (p1 as real / 1000.0) * p.prompt;
    assert ((s0 + s1) as real / 1000.0) * p.sampled
      == (s0 as real / 1000.0) * p.sampled + (s1 as real / 1000.0) * p.sampled;
  }

  /** `gpt-4-turbo` is priced at (0.01, 0.03): 500 prompt and 200 sampled tokens cost 0.011, 1000 and 1000 cost 0.04. */
  lemma TurboExample()
    ensures CalculateCost("gpt-4-turbo", 500, 200) == 0.011
    ensures CalculateCost("gpt-4-turbo", 1000, 1000) == 0.04
  {
    assert Table[14].0 == "gpt-4-turbo";
    LookupExactKey(Table, "gpt-4-turbo", 14);
  }

  /** The keys of the table are distinct, as the keys of a dict literal are. */
  lemma TableKeysDistinct()
    ensures forall i, j :: 0 <= i < j < |Table| ==> Table[i].0 != Table[j].0
  {
    GptFourOneAndFourOKeysDistinct();
    OSeriesKeysDistinct();
    GptFourAndThreeFiveKeysDistinct();
    LegacyKeysDistinct();
  }

  /** No GPT-4.1 or GPT-4o key recurs later in the table. */
  lemma GptFourOneAndFourOKeysDistinct()
    ensures forall i, j :: 0 <= i < 6 && i < j < |Table| ==> Table[i].0 != Table[j].0
  {
  }

  /** No o-series key recurs later in the table. */
  lemma OSeriesKeysDistinct()
    ensures forall i, j :: 6 <= i < 12 && i < j < |Table| ==> Table[i].0 != Table[j].0
  {
  }

  /** No GPT-4 or GPT-3.5 key recurs later in the table. */
  lemma GptFourAndThreeFiveKeysDistinct()
    ensures forall i, j :: 12 <= i < 22 && i < j < |Table| ==> Table[i].0 != Table[j].0
  {
  }

  /** No legacy key recurs later in the table. */
  lemma LegacyKeysDistinct()
    ensures forall i, j :: 22 <= i < j < |Table| ==> Table[i].0 != Table[j].0
  {
  }

  /** Every model name that is a table key is priced with that key's own prices. */
  lemma TableOwnPrices(i: int)
    requires 0 <= i < |Table|
    ensures Lookup(Table, Table[i].0) == Some(Table[i].1)
  {
    TableKeysDistinct();
    LookupExactKey(Table, Table[i].0, i);
  }

  /** Every key of `t` that occurs in `model` is shorter than `n`. */
  predicate MatchesShorterThan(t: PriceTable, model: string, n: int)
  {
    forall j :: 0 <= j < |t| && Contains(model, t[j].0) ==> |t[j].0| < n
  }

  /**
   * The selection rule split at entry `i`: entry `i` occurs in `model`, every
   * earlier occurring key is shorter, and no later occurring key is longer.
   */
  lemma SplitIsFirstLongest(t: PriceTable, model: string, i: int)
    requires 0 <= i < |t| && Contains(model, t[i].0)
    requires MatchesShorterThan(t[..i], model, |t[i].0|)
    requires MatchesShorterThan(t[i + 1..], model, |t[i].0| + 1)
    ensures IsFirstLongest(t, model, i)
  {
    forall j | 0 <= j < |t| && Contains(model, t[j].0)
      ensures |t[j].0| <= |t[i].0|
      ensures j < i ==> |t[j].0| < |t[i].0|
    {
      if j < i {
        assert t[..i][j] == t[j];
      } else if j > i {
        assert t[i + 1..][j - i - 1] == t[j];
      }
    }
  }

  lemma MatchesShorterThanConcat(a: PriceTable, b: PriceTable, model: string, n: int)
    requires MatchesShorterThan(a, model, n) && MatchesShorterThan(b, model, n)
    ensures MatchesShorterThan(a + b, model, n)
  {
    forall j | 0 <= j < |a + b| && Contains(model, (a + b)[j].0)
      ensures |(a + b)[j].0| < n
    {
      if j >= |a| {
        assert (a + b)[j] == b[j - |a|];
      }
    }
  }

  /** No key occurs in `model` when none occurs in a table or in the rest. */
  lemma NoMatchConcat(a: PriceTable, b: PriceTable, model: string)
    requires MatchesShorterThan(a, model, 0) && MatchesShorterThan(b, model, 0)
    ensures forall j :: 0 <= j < |a + b| ==> !Contains(model, (a + b)[j].0)
  {
    MatchesShorterThanConcat(a, b, model, 0);
  }

  /**
   * Checks MatchesShorterThan entry by entry: each key is shorter than `n`,
   * or holds at position `w[d]` a character that `model` lacks.
   *
   * The examples below pass `w` as a literal witness vector: `-1` marks a
   * key that is short enough, and any other entry is the position, in that
   * key, of a character the model name lacks. They take the model name as
   * a parameter fixed by `requires m == "..."` rather than a local literal,
   * which keeps the verifier from unfolding the literal string into every
   * step of the proof.
   */
  lemma ShortOrAbsent(t: PriceTable, model: string, n: int, w: seq<int>)
    requires |w| == |t|
    requires forall d :: 0 <= d < |t| ==>
               |t[d].0| < n || (0 <= w[d] < |t[d].0| && t[d].0[w[d]] !in model)
    ensures MatchesShorterThan(t, model, n)
  {
    forall j | 0 <= j < |t| && Contains(model, t[j].0)
      ensures |t[j].0| < n
    {
      if |t[j].0| >= n {
        NotContainsByAbsentChar(model, t[j].0, w[j]);
      }
    }
  }

  lemma TableBeforeGpt4oMini()
    ensures Table[..5] == Gpt41Prices + Gpt4oPrices[..1]
  {
  }

  lemma TableAfterGpt4oMini()
    ensures Table[6..] == OSeriesPrices + Gpt4Prices + Gpt35Prices + LegacyPrices
  {
  }

  lemma TableBeforeDavinci002()
    ensures Table[..22] == Gpt41Prices + Gpt4oPrices + OSeriesPrices + Gpt4Prices + Gpt35Prices
  {
  }

  lemma TableAfterDavinci002()
    ensures Table[23..] == LegacyPrices[1..]
  {
  }

  /**
   * A dated model name is priced as the longest key it contains:
   * `gpt-4o-mini-2024-07-18` is priced as `gpt-4o-mini` (entry 5), not as
   * `gpt-4o`.
   */
  lemma DatedNameExample(m: string)
    requires m == "gpt-4o-mini-2024-07-18"
    ensures IsFirstLongest(Table, m, 5)
    ensures Lookup(Table, m) == Some(Table[5].1)
  {
    assert Table[5].0 == "gpt-4o-mini";
    assert OccursAt(m, Table[5].0, 0);
    DatedNameBefore(m);
    DatedNameAfter(m);
    SplitIsFirstLongest(Table, m, 5);
    LookupIsFirstLongest(Table, m, 5);
  }

  lemma DatedNameBefore(m: string)
    requires m == "gpt-4o-mini-2024-07-18"
    ensures MatchesShorterThan(Table[..5], m, 11)
  {
    ShortOrAbsent(Gpt41Prices, m, 11, [-1, 5, 5, 5]);
    ShortOrAbsent(Gpt4oPrices[..1], m, 11, [-1]);
    MatchesShorterThanConcat(Gpt41Prices, Gpt4oPrices[..1], m, 11);
    TableBeforeGpt4oMini();
  }

  lemma DatedNameAfter(m: string)
    requires m == "gpt-4o-mini-2024-07-18"
    ensures MatchesShorterThan(Table[6..], m, 12)
  {
    DatedNameAfterCurrent(m);
    DatedNameAfterOlder(m);
    MatchesShorterThanConcat(OSeriesPrices + Gpt4Prices, Gpt35Prices + LegacyPrices, m, 12);
    assert OSeriesPrices + Gpt4Prices + (Gpt35Prices + LegacyPrices)
      == OSeriesPrices + Gpt4Prices + Gpt35Prices + LegacyPrices;
    TableAfterGpt4oMini();
  }

  lemma DatedNameAfterCurrent(m: string)
    requires m == "gpt-4o-mini-2024-07-18"
    ensures MatchesShorterThan(OSeriesPrices + Gpt4Prices, m, 12)
  {
    ShortOrAbsent(OSeriesPrices, m, 12, [-1, -1, -1, -1, -1, -1]);
    ShortOrAbsent(Gpt4Prices, m, 12, [-1, -1, -1, 7, -1]);
    MatchesShorterThanConcat(OSeriesPrices, Gpt4Prices, m, 12);
  }

  lemma DatedNameAfterOlder(m: string)
    requires m == "gpt-4o-mini-2024-07-18"
    ensures MatchesShorterThan(Gpt35Prices + LegacyPrices, m, 12)
  {
    ShortOrAbsent(Gpt35Prices, m, 12, [4, 4, 4, 4, 4]);
    DatedNameAfterLegacy(m);
    MatchesShorterThanConcat(Gpt35Prices, LegacyPrices, m, 12);
  }

  lemma DatedNameAfterLegacy(m: string)
    requires m == "gpt-4o-mini-2024-07-18"
    ensures MatchesShorterThan(LegacyPrices, m, 12)
  {
    ShortOrAbsent(LegacyPrices, m, 12, [-1, -1, -1, 1, -1, 1, -1, 1, -1, 1, 1, 1]);
  }

  /**
   * Ties go to table order, not to the order in the name:
   * `babbage-002-davinci-002` holds two keys of length 11 and is priced as
   * `davinci-002` (entry 22), which comes before `babbage-002` (entry 23).
   */
  lemma TieExample(m: string)
    requires m == "babbage-002-davinci-002"
    ensures OccursAt(m, Table[23].0, 0) && |Table[23].0| == |Table[22].0|
    ensures IsFirstLongest(Table, m, 22)
    ensures Lookup(Table, m) == Some(Table[22].1)
  {
    assert Table[22].0 == "davinci-002";
    assert Table[23].0 == "babbage-002";
    assert OccursAt(m, Table[23].0, 0);
    assert OccursAt(m, Table[22].0, 12);
    TieBefore(m);
    TieAfter(m);
    SplitIsFirstLongest(Table, m, 22);
    LookupIsFirstLongest(Table, m, 22);
  }

  lemma TieBefore(m: string)
    requires m == "babbage-002-davinci-002"
    ensures MatchesShorterThan(Table[..22], m, 11)
  {
    TieBeforeCurrent(m);
    ShortOrAbsent(Gpt4Prices, m, 11, [-1, -1, 1, 1, -1]);
    ShortOrAbsent(Gpt35Prices, m, 11, [1, 1, 1, 1, 1]);
    MatchesShorterThanConcat(Gpt41Prices, Gpt4oPrices, m, 11);
    MatchesShorterThanConcat(Gpt41Prices + Gpt4oPrices, OSeriesPrices, m, 11);
    MatchesShorterThanConcat(Gpt41Prices + Gpt4oPrices + OSeriesPrices, Gpt4Prices, m, 11);
    MatchesShorterThanConcat(Gpt41Prices + Gpt4oPrices + OSeriesPrices + Gpt4Prices, Gpt35Prices, m, 11);
    TableBeforeDavinci002();
  }

  lemma TieBeforeCurrent(m: string)
    requires m == "babbage-002-davinci-002"
    ensures MatchesShorterThan(Gpt41Prices, m, 11)
    ensures MatchesShorterThan(Gpt4oPrices, m, 11)
    ensures MatchesShorterThan(OSeriesPrices, m, 11)
  {
    ShortOrAbsent(Gpt41Prices, m, 11, [-1, 1, 1, 1]);
    ShortOrAbsent(Gpt4oPrices, m, 11, [-1, 1]);
    ShortOrAbsent(OSeriesPrices, m, 11, [-1, -1, -1, -1, -1, -1]);
  }

  lemma TieAfter(m: string)
    requires m == "babbage-002-davinci-002"
    ensures MatchesShorterThan(Table[23..], m, 12)
  {
    ShortOrAbsent(LegacyPrices[1..], m, 12, [-1, -1, 0, -1, 0, -1, 0, -1, 0, 0, 0]);
    TableAfterDavinci002();
  }

  /** A name no key occurs in, such as `llama-3`, is unpriced and costs 0. */
  lemma UnpricedExample(m: string, promptTokens: int, sampledTokens: int)
    requires m == "llama-3"
    ensures Lookup(Table, m) == None
    ensures CalculateCost(m, promptTokens, sampledTokens) == 0.0
  {
    UnpricedNoMatch(m);
  }

  lemma UnpricedNoMatch(m: string)
    requires m == "llama-3"
    ensures forall j :: 0 <= j < |Table| ==> !Contains(m, Table[j].0)
  {
    UnpricedNoMatchCurrent(m);
    UnpricedNoMatchOlder(m);
    NoMatchConcat(Gpt41Prices + Gpt4oPrices + OSeriesPrices, Gpt4Prices + Gpt35Prices + LegacyPrices, m);
    assert Gpt41Prices + Gpt4oPrices + OSeriesPrices + (Gpt4Prices + Gpt35Prices + LegacyPrices) == Table;
  }

  lemma UnpricedNoMatchCurrent(m: string)
    requires m == "llama-3"
    ensures MatchesShorterThan(Gpt41Prices + Gpt4oPrices + OSeriesPrices, m, 0)
  {
    ShortOrAbsent(Gpt41Prices, m, 0, [0, 0, 0, 0]);
    ShortOrAbsent(Gpt4oPrices, m, 0, [0, 0]);
    ShortOrAbsent(OSeriesPrices, m, 0, [0, 0, 0, 0, 0, 0]);
    MatchesShorterThanConcat(Gpt41Prices, Gpt4oPrices, m, 0);
    MatchesShorterThanConcat(Gpt41Prices + Gpt4oPrices, OSeriesPrices, m, 0);
  }

  lemma UnpricedNoMatchOlder(m: string)
    requires m == "llama-3"
    ensures MatchesShorterThan(Gpt4Prices + Gpt35Prices + LegacyPrices, m, 0)
  {
    ShortOrAbsent(Gpt4Prices, m, 0, [0, 0, 0, 0, 0]);
    ShortOrAbsent(Gpt35Prices, m, 0, [0, 0, 0, 0, 0]);
    ShortOrAbsent(LegacyPrices, m, 0, [0, 0, 1, 0, 0, 0, 0, 0, 0, 0, 0, 0]);
    MatchesShorterThanConcat(Gpt4Prices, Gpt35Prices, m, 0);
    MatchesShorterThanConcat(Gpt4Prices + Gpt35Prices, LegacyPrices, m, 0);
  }
}

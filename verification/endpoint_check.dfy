/**
 * The endpoint configuration check of the handlers module: all five settings
 * must be present, the metrics URL must be a Prometheus-style `api/prom` URL,
 * a Grafana Cloud Prometheus URL is rewritten to the Influx line-protocol push
 * URL of the same stack, and one trailing `/` is dropped from both URLs.
 */
module EndpointCheck {
  import opened Wrappers
  import opened Strings

  /** The two `ValueError`s the check raises. */
  datatype CheckError =
    | MissingParameter     // some setting is None or empty
    | MissingApiProm       // the metrics URL lacks `api/prom`

  const ApiProm := "api/prom"
  const Prometheus := "prometheus"
  const Influx := "influx"
  const InfluxWritePath := "api/v1/push/influx/write"
  const UsCentral := "-us-central1"
  const UsCentralStack := "-prod-06-prod-us-central-0"

  /** Python truthiness of a setting: the falsy values of an optional string are `None` and `""`. */
  predicate Provided(setting: Option<string>): (r: bool)
    ensures r <==> setting != None && setting != Some("")
  {
    setting.Some? && |setting.value| > 0
  }

  /** `all([metrics_url, logs_url, metrics_username, logs_username, access_token])`. */
  predicate AllProvided(metricsUrl: Option<string>, logsUrl: Option<string>,
                        metricsUsername: Option<string>, logsUsername: Option<string>,
                        accessToken: Option<string>): (r: bool)
    ensures r <==> forall setting <- [metricsUrl, logsUrl, metricsUsername, logsUsername, accessToken] ::
                     Provided(setting)
  {
    Provided(metricsUrl) && Provided(logsUrl) && Provided(metricsUsername)
    && Provided(logsUsername) && Provided(accessToken)
  }

  /** `u[:-1] if u.endswith('/') else u`: drops exactly one trailing slash, if any. */
  function TrimTrailingSlash(u: string): (r: string)
    ensures r == u || r + "/" == u
    ensures r == u <==> !EndsWith(u, '/')
  {
    if EndsWith(u, '/') then u[..|u| - 1] else u
  }

  /**
   * The Prometheus-to-Influx rewrite of the metrics URL, before the slash is
   * trimmed. A URL without `prometheus` is returned as it is. The
   * `-us-central1` test is redundant: replacing an absent substring changes
   * nothing, so the Prometheus branch is the plain chain of three
   * replacements.
   */
  function RewriteMetricsUrl(metricsUrl: string): (r: string)
    ensures !Contains(metricsUrl, Prometheus) ==> r == metricsUrl
    ensures Contains(metricsUrl, Prometheus) ==> r == RewriteChain(metricsUrl)
  {
    if Contains(metricsUrl, Prometheus) then
      var toInflux := ReplaceAll(metricsUrl, Prometheus, Influx);
      var toPush := ReplaceAll(toInflux, ApiProm, InfluxWritePath);
      if Contains(toPush, UsCentral) then
        ReplaceAll(toPush, UsCentral, UsCentralStack)
      else
        ReplaceAllAbsent(toPush, UsCentral, UsCentralStack);
        toPush
    else
      metricsUrl
  }

  /** The three replacements of the Prometheus branch, applied unconditionally. */
  function RewriteChain(metricsUrl: string): (r: string)
  {
    ReplaceAll(ReplaceAll(ReplaceAll(metricsUrl, Prometheus, Influx), ApiProm, InfluxWritePath),
               UsCentral, UsCentralStack)
  }

  /**
   * The check itself: either the error it raises or the pair
   * (metrics URL, logs URL) it returns.
   */
  function Check(metricsUrl: Option<string>, logsUrl: Option<string>,
                 metricsUsername: Option<string>, logsUsername: Option<string>,
                 accessToken: Option<string>): (r: Result<(string, string), CheckError>)
    ensures r == Err(MissingParameter)
      <==> !AllProvided(metricsUrl, logsUrl, metricsUsername, logsUsername, accessToken)
    ensures r == Err(MissingApiProm)
      <==> AllProvided(metricsUrl, logsUrl, metricsUsername, logsUsername, accessToken)
           && !Contains(metricsUrl.value, ApiProm)
    ensures r.Ok? <==>
      AllProvided(metricsUrl, logsUrl, metricsUsername, logsUsername, accessToken)
      && Contains(metricsUrl.value, ApiProm)
    ensures r.Ok? ==> r.value.1 == TrimTrailingSlash(logsUrl.value)
    ensures r.Ok? && !Contains(metricsUrl.value, Prometheus) ==>
      r.value.0 == TrimTrailingSlash(metricsUrl.value)
    ensures r.Ok? && Contains(metricsUrl.value, Prometheus) ==>
      r.value.0 == TrimTrailingSlash(RewriteChain(metricsUrl.value))
  {
    if !AllProvided(metricsUrl, logsUrl, metricsUsername, logsUsername, accessToken) then
      Err(MissingParameter)
    else if !Contains(metricsUrl.value, ApiProm) then
      Err(MissingApiProm)
    else
      Ok((TrimTrailingSlash(RewriteMetricsUrl(metricsUrl.value)), TrimTrailingSlash(logsUrl.value)))
  }

  /** Only one slash is removed: `x//` comes back as `x/`. */
  lemma TrimRemovesOneSlash(u: string)
    ensures TrimTrailingSlash(u + "//") == u + "/"
  {
    assert (u + "//")[..|u| + 1] == u + "/";
  }

  /** A Grafana Cloud Prometheus push URL of the us-central1 region, with a trailing slash. */
  const UsCentralPromUrl := "https://" + Prometheus + UsCentral + ".grafana.net/" + ApiProm + "/"

  /** What the check makes of it: the Influx write URL of the stack, without the slash. */
  const UsCentralInfluxUrl := "https://" + Influx + UsCentralStack + ".grafana.net/" + InfluxWritePath

  /**
   * The `-us-central1` special case end to end: `prometheus` becomes
   * `influx`, `api/prom` becomes the Influx write path, the region suffix
   * becomes the stack's host suffix, and the trailing slashes of both URLs
   * are dropped.
   */
  lemma UsCentralExample()
    ensures Check(Some(UsCentralPromUrl), Some("l/"), Some("m"), Some("n"), Some("t"))
         == Ok((UsCentralInfluxUrl, "l"))
  {
    var url := UsCentralPromUrl;
    assert OccursAt(url, Prometheus, 8);
    ContainsAt(url, Prometheus, 8);
    assert OccursAt(url, ApiProm, |url| - 9);
    ContainsAt(url, ApiProm, |url| - 9);
    assert AllProvided(Some(url), Some("l/"), Some("m"), Some("n"), Some("t"));
    UsCentralSteps();
    var out := UsCentralInfluxUrl + "/";
    assert out[..|out| - 1] == UsCentralInfluxUrl;
    assert TrimTrailingSlash("l/") == "l";
  }

  lemma UsCentralSteps()
    ensures RewriteChain(UsCentralPromUrl) == UsCentralInfluxUrl + "/"
  {
    var toInflux := "https://" + Influx + UsCentral + ".grafana.net/" + ApiProm + "/";
    var toPush := "https://" + Influx + UsCentral + ".grafana.net/" + InfluxWritePath + "/";
    PrometheusStep();
    ApiPromStep();
    UsCentralStep();
    assert ReplaceAll(UsCentralPromUrl, Prometheus, Influx) == toInflux;
    assert ReplaceAll(toInflux, ApiProm, InfluxWritePath) == toPush;
  }

  lemma PrometheusStep()
    ensures ReplaceAll(UsCentralPromUrl, Prometheus, Influx)
         == "https://" + Influx + UsCentral + ".grafana.net/" + ApiProm + "/"
  {
    var post := UsCentral + ".grafana.net/" + ApiProm + "/";
    NoEarlyPrometheus();
    NoLatePrometheus();
    ReplaceAllSplit("https://", Prometheus, post, Influx);
    RegroupFour("https://" + Prometheus, UsCentral, ".grafana.net/", ApiProm, "/");
    RegroupFour("https://" + Influx, UsCentral, ".grafana.net/", ApiProm, "/");
  }

  lemma ApiPromStep()
    ensures ReplaceAll("https://" + Influx + UsCentral + ".grafana.net/" + ApiProm + "/", ApiProm, InfluxWritePath)
         == "https://" + Influx + UsCentral + ".grafana.net/" + InfluxWritePath + "/"
  {
    var pre := "https://" + Influx + UsCentral + ".grafana.net/";
    ApiPromOnce();
    ReplaceAllSplit(pre, ApiProm, "/", InfluxWritePath);
  }

  lemma UsCentralStep()
    ensures ReplaceAll("https://" + Influx + UsCentral + ".grafana.net/" + InfluxWritePath + "/", UsCentral, UsCentralStack)
         == UsCentralInfluxUrl + "/"
  {
    var post := ".grafana.net/" + InfluxWritePath + "/";
    UsCentralOnce();
    ReplaceAllSplit("https://" + Influx, UsCentral, post, UsCentralStack);
    RegroupThree("https://" + Influx + UsCentral, ".grafana.net/", InfluxWritePath, "/");
    RegroupThree("https://" + Influx + UsCentralStack, ".grafana.net/", InfluxWritePath, "/");
  }

  /** Regrouping a concatenation, so that the split ReplaceAllSplit expects appears. */
  lemma RegroupThree(x: string, a: string, b: string, c: string)
    ensures x + a + b + c == x + (a + b + c)
  {
  }

  lemma RegroupFour(x: string, a: string, b: string, c: string, d: string)
    ensures x + a + b + c + d == x + (a + b + c + d)
  {
  }

  /** `prometheus` does not start inside `https://`: the one `p` there is followed by `s`. */
  lemma NoEarlyPrometheus()
    ensures !Contains("https://" + Prometheus[..|Prometheus| - 1], Prometheus)
  {
    var h := "https://" + Prometheus[..|Prometheus| - 1];
    forall i | 0 <= i < |h|
      ensures !OccursAt(h, Prometheus, i)
    {
      if i + |Prometheus| <= |h| {
        assert h[i..i + |Prometheus|][0] == h[i];
        assert h[i..i + |Prometheus|][1] == h[i + 1];
        if i == 3 {
          assert h[i + 1] == 's';
        } else {
          assert h[i] != 'p';
        }
      }
    }
  }

  /** Nothing after `prometheus` in the example URL holds an `h`, so `prometheus` does not recur. */
  lemma NoLatePrometheus()
    ensures !Contains(UsCentral + ".grafana.net/" + ApiProm + "/", Prometheus)
  {
    NotContainsByAbsentChar(UsCentral + ".grafana.net/" + ApiProm + "/", Prometheus, 6);
  }

  /** `api/prom` occurs once in the rewritten URL: nothing before its end holds an `m`, and `/` follows it. */
  lemma ApiPromOnce()
    ensures !Contains("https://" + Influx + UsCentral + ".grafana.net/" + ApiProm[..|ApiProm| - 1], ApiProm)
    ensures !Contains("/", ApiProm)
  {
    NotContainsByAbsentChar("https://" + Influx + UsCentral + ".grafana.net/" + ApiProm[..|ApiProm| - 1], ApiProm, 7);
    NotContainsByAbsentChar("/", ApiProm, 0);
  }

  /** `-us-central1` occurs once: nothing before its end holds a `1`, and nothing after it holds a `c`. */
  lemma UsCentralOnce()
    ensures !Contains("https://" + Influx + UsCentral[..|UsCentral| - 1], UsCentral)
    ensures !Contains(".grafana.net/" + InfluxWritePath + "/", UsCentral)
  {
    NotContainsByAbsentChar("https://" + Influx + UsCentral[..|UsCentral| - 1], UsCentral, 11);
    NotContainsByAbsentChar(".grafana.net/" + InfluxWritePath + "/", UsCentral, 4);
  }
}

/**
 * The in-memory metrics registry (app/metrics.py): two counter maps keyed by
 * label tuples, updated in place, and their export in the Prometheus text
 * exposition format.
 */
module Metrics {
  import opened Ordering

  /** The label tuple `(method, path, status)` of `http_requests_total`. */
  datatype HttpKey = HttpKey(httpMethod: string, path: string, status: int)

  /** A `defaultdict(int)` read: a key never incremented reads as 0. */
  function Count<K>(m: map<K, nat>, k: K): (c: nat)
    ensures k !in m ==> c == 0
    ensures k in m ==> c == m[k]
  {
    if k in m then m[k] else 0
  }

  /** `m[k] += 1` on a `defaultdict(int)`. */
  function Bump<K(!new)>(m: map<K, nat>, k: K): (r: map<K, nat>)
    ensures Count(r, k) == Count(m, k) + 1
    ensures forall j :: j != k ==> Count(r, j) == Count(m, j)
    ensures r.Keys == m.Keys + {k}
  {
    m[k := Count(m, k) + 1]
  }

  ghost function Pick<K>(s: set<K>): K
    requires s != {}
  {
    var k :| k in s; k
  }

  /** The sum of all counts. */
  ghost function Total<K>(m: map<K, nat>): nat
    decreases |m.Keys|
  {
    if m == map[] then 0
    else
      var k := Pick(m.Keys);
      assert (m - {k}).Keys == m.Keys - {k};
      m[k] + Total(m - {k})
  }

  lemma {:induction false} TotalRemove<K>(m: map<K, nat>, k: K)
    requires k in m
    ensures Total(m) == m[k] + Total(m - {k})
    decreases |m.Keys|
  {
    var j := Pick(m.Keys);
    if j != k {
      assert (m - {j}).Keys == m.Keys - {j};
      assert (m - {k}).Keys == m.Keys - {k};
      TotalRemove(m - {j}, k);
      TotalRemove(m - {k}, j);
      assert m - {j} - {k} == m - {k} - {j};
    }
  }

  /** One increment adds exactly one to the sum of a counter map. */
  lemma TotalBump<K(!new)>(m: map<K, nat>, k: K)
    ensures Total(Bump(m, k)) == Total(m) + 1
  {
    var r := Bump(m, k);
    TotalRemove(r, k);
    if k in m {
      TotalRemove(m, k);
      assert r - {k} == m - {k};
    } else {
      assert r - {k} == m;
    }
  }

  /** Python's order on `(method, path, status)` tuples: field by field. */
  predicate HttpKeyLess(a: HttpKey, b: HttpKey) {
    || StrLess(a.httpMethod, b.httpMethod)
    || (a.httpMethod == b.httpMethod && StrLess(a.path, b.path))
    || (a.httpMethod == b.httpMethod && a.path == b.path && a.status < b.status)
  }

  lemma HttpKeyOrderOn(s: set<HttpKey>)
    ensures StrictTotalOn(s, HttpKeyLess)
  {
    forall x | x in s ensures !HttpKeyLess(x, x) {
      StrLessIrreflexive(x.httpMethod);
      StrLessIrreflexive(x.path);
    }
    forall x, y, z | x in s && y in s && z in s && HttpKeyLess(x, y) && HttpKeyLess(y, z)
      ensures HttpKeyLess(x, z)
    {
      if StrLess(x.httpMethod, y.httpMethod) && StrLess(y.httpMethod, z.httpMethod) {
        StrLessTransitive(x.httpMethod, y.httpMethod, z.httpMethod);
      }
      if x.httpMethod == y.httpMethod == z.httpMethod && StrLess(x.path, y.path) && StrLess(y.path, z.path) {
        StrLessTransitive(x.path, y.path, z.path);
      }
    }
    forall x, y | x in s && y in s && x != y ensures HttpKeyLess(x, y) || HttpKeyLess(y, x) {
      StrLessTotal(x.httpMethod, y.httpMethod);
      StrLessTotal(x.path, y.path);
    }
  }

  // ---------------------------------------------------------------------------
  // Text rendering

  function DigitChar(d: nat): char
    requires d < 10
  {
    ('0' as int + d) as char
  }

  /** `str(n)` for a non-negative integer. */
  function NatToString(n: nat): (s: string)
    ensures |s| > 0
    ensures forall i :: 0 <= i < |s| ==> '0' <= s[i] <= '9'
    decreases n
  {
    if n < 10 then [DigitChar(n)] else NatToString(n / 10) + [DigitChar(n % 10)]
  }

  /** `str(i)` for any integer. */
  function IntToString(i: int): string {
    if i < 0 then "-" + NatToString(-i) else NatToString(i)
  }

  /** A `# HELP` or `# TYPE` comment line. */
  function Comment(keyword: string, metric: string, text: string): string {
    "# " + keyword + " " + metric + " " + text
  }

  const HttpHelp := Comment("HELP", "http_requests_total", "Total HTTP requests")
  const HttpType := Comment("TYPE", "http_requests_total", "counter")
  const WebhookHelp := Comment("HELP", "webhook_requests_total", "Total webhook requests")
  const WebhookType := Comment("TYPE", "webhook_requests_total", "counter")
  const HttpHeader := [HttpHelp, HttpType]
  const WebhookHeader := [WebhookHelp, WebhookType]

  /** A series name with its label set, then a space and the count. */
  function SampleLine(series: string, count: nat): string {
    series + " " + NatToString(count)
  }

  function HttpSeries(k: HttpKey): string {
    "http_requests_total{method=\"" + k.httpMethod + "\",path=\"" + k.path
      + "\",status=\"" + IntToString(k.status) + "\"}"
  }

  function WebhookSeries(result: string): string {
    "webhook_requests_total{result=\"" + result + "\"}"
  }

  /** The f-string sample line of `http_requests_total`. */
  function HttpLine(k: HttpKey, count: nat): string {
    SampleLine(HttpSeries(k), count)
  }

  /** The f-string sample line of `webhook_requests_total`. */
  function WebhookLine(result: string, count: nat): string {
    SampleLine(WebhookSeries(result), count)
  }

  /** One line per key of `keys`, in that order, each with the key's stored count. */
  function HttpLines(h: map<HttpKey, nat>, keys: seq<HttpKey>): (ls: seq<string>)
    requires forall i :: 0 <= i < |keys| ==> keys[i] in h
    ensures |ls| == |keys| && forall i :: 0 <= i < |keys| ==> ls[i] == HttpLine(keys[i], h[keys[i]])
  {
    seq(|keys|, i requires 0 <= i < |keys| => HttpLine(keys[i], h[keys[i]]))
  }

  function WebhookLines(w: map<string, nat>, keys: seq<string>): (ls: seq<string>)
    requires forall i :: 0 <= i < |keys| ==> keys[i] in w
    ensures |ls| == |keys| && forall i :: 0 <= i < |keys| ==> ls[i] == WebhookLine(keys[i], w[keys[i]])
  {
    seq(|keys|, i requires 0 <= i < |keys| => WebhookLine(keys[i], w[keys[i]]))
  }

  lemma HttpLinesGrow(h: map<HttpKey, nat>, keys: seq<HttpKey>, i: nat)
    requires i < |keys| && forall j :: 0 <= j < |keys| ==> keys[j] in h
    ensures HttpLines(h, keys[..i + 1]) == HttpLines(h, keys[..i]) + [HttpLine(keys[i], h[keys[i]])]
  {
    var a := HttpLines(h, keys[..i + 1]);
    var b := HttpLines(h, keys[..i]) + [HttpLine(keys[i], h[keys[i]])];
    assert |a| == |b|;
    forall j | 0 <= j < |a| ensures a[j] == b[j] {
      assert keys[..i + 1][j] == keys[j];
    }
  }

  lemma WebhookLinesGrow(w: map<string, nat>, keys: seq<string>, i: nat)
    requires i < |keys| && forall j :: 0 <= j < |keys| ==> keys[j] in w
    ensures WebhookLines(w, keys[..i + 1]) == WebhookLines(w, keys[..i]) + [WebhookLine(keys[i], w[keys[i]])]
  {
    var a := WebhookLines(w, keys[..i + 1]);
    var b := WebhookLines(w, keys[..i]) + [WebhookLine(keys[i], w[keys[i]])];
    assert |a| == |b|;
    forall j | 0 <= j < |a| ensures a[j] == b[j] {
      assert keys[..i + 1][j] == keys[j];
    }
  }

  /** `sorted()` over the HTTP keys: every key once, in increasing tuple order. */
  ghost function SortedHttpKeys(h: map<HttpKey, nat>): (keys: seq<HttpKey>)
    ensures |keys| == |h.Keys| && forall i :: 0 <= i < |keys| ==> keys[i] in h
    ensures SortedBy(keys, HttpKeyLess) && Enumerates(keys, h.Keys)
  {
    HttpKeyOrderOn(h.Keys);
    SortedSeq(h.Keys, HttpKeyLess)
  }

  /** `sorted()` over the webhook results: every label once, in increasing string order. */
  ghost function SortedResults(w: map<string, nat>): (keys: seq<string>)
    ensures |keys| == |w.Keys| && forall i :: 0 <= i < |keys| ==> keys[i] in w
    ensures SortedBy(keys, StrLess) && Enumerates(keys, w.Keys)
  {
    StrOrderOn(w.Keys);
    SortedSeq(w.Keys, StrLess)
  }

  /** The lines of the exposition: the HTTP block, then the webhook block, each in sorted key order. */
  ghost function ExpositionLines(h: map<HttpKey, nat>, w: map<string, nat>): seq<string> {
    Blocks(HttpLines(h, SortedHttpKeys(h)), WebhookLines(w, SortedResults(w)))
  }

  /** The two blocks with their headers. */
  function Blocks(httpBlock: seq<string>, webhookBlock: seq<string>): seq<string> {
    HttpHeader + httpBlock + WebhookHeader + webhookBlock
  }

  /** `sep.join(lines)`. */
  function Join(lines: seq<string>, sep: string): string
    decreases |lines|
  {
    if |lines| == 0 then ""
    else if |lines| == 1 then lines[0]
    else lines[0] + sep + Join(lines[1..], sep)
  }

  /** `"\n".join(lines) + "\n"`: the text always ends with a newline. */
  ghost function Exposition(h: map<HttpKey, nat>, w: map<string, nat>): (e: string)
    ensures |e| > 0 && e[|e| - 1] == '\n'
  {
    Join(ExpositionLines(h, w), "\n") + "\n"
  }

  // ---------------------------------------------------------------------------
  // The registry

  class Metrics {
    var httpRequests: map<HttpKey, nat>
    var webhookRequests: map<string, nat>

    /** Only incremented keys are stored, so every stored count is at least one. */
    ghost predicate Valid()
      reads this
    {
      && (forall k :: k in httpRequests ==> httpRequests[k] >= 1)
      && (forall r :: r in webhookRequests ==> webhookRequests[r] >= 1)
    }

    constructor ()
      ensures Valid()
      ensures httpRequests == map[] && webhookRequests == map[]
    {
      httpRequests := map[];
      webhookRequests := map[];
    }

    method IncrementHttpRequest(httpMethod: string, path: string, status: int)
      requires Valid()
      modifies this
      ensures Valid()
      ensures httpRequests == Bump(old(httpRequests), HttpKey(httpMethod, path, status))
      ensures webhookRequests == old(webhookRequests)
    {
      var key := HttpKey(httpMethod, path, status);
      httpRequests := httpRequests[key := Count(httpRequests, key) + 1];
    }

    method IncrementWebhookRequest(result: string)
      requires Valid()
      modifies this
      ensures Valid()
      ensures webhookRequests == Bump(old(webhookRequests), result)
      ensures httpRequests == old(httpRequests)
    {
      webhookRequests := webhookRequests[result := Count(webhookRequests, result) + 1];
    }

    /** Renders both maps; it has no `modifies` clause, so neither map changes. */
    method ExportPrometheus() returns (text: string)
      ensures text == Exposition(httpRequests, webhookRequests)
    {
      var httpBlock := RenderHttpBlock(httpRequests);
      var webhookBlock := RenderWebhookBlock(webhookRequests);
      text := Join(Blocks(httpBlock, webhookBlock), "\n") + "\n";
    }
  }

  /** The first loop of export_prometheus: one line per HTTP key, in sorted order. */
  method RenderHttpBlock(h: map<HttpKey, nat>) returns (lines: seq<string>)
    ensures lines == HttpLines(h, SortedHttpKeys(h))
  {
    HttpKeyOrderOn(h.Keys);
    var keys := SortedList(h.Keys, HttpKeyLess);
    lines := RenderHttpLines(h, keys);
  }

  /** The body of that loop, run over the keys in the order given. */
  method RenderHttpLines(h: map<HttpKey, nat>, keys: seq<HttpKey>) returns (lines: seq<string>)
    requires forall j :: 0 <= j < |keys| ==> keys[j] in h
    ensures lines == HttpLines(h, keys)
  {
    lines := [];
    var i := 0;
    while i < |keys|
      invariant 0 <= i <= |keys|
      invariant lines == HttpLines(h, keys[..i])
    {
      var k := keys[i];
      lines := lines + [HttpLine(k, h[k])];
      i := i + 1;
      HttpLinesGrow(h, keys, i - 1);
    }
    assert keys[..i] == keys;
  }

  /** The second loop of export_prometheus: one line per webhook result, in sorted order. */
  method RenderWebhookBlock(w: map<string, nat>) returns (lines: seq<string>)
    ensures lines == WebhookLines(w, SortedResults(w))
  {
    StrOrderOn(w.Keys);
    var results := SortedList(w.Keys, StrLess);
    lines := RenderWebhookLines(w, results);
  }

  /** The body of that loop, run over the results in the order given. */
  method RenderWebhookLines(w: map<string, nat>, results: seq<string>) returns (lines: seq<string>)
    requires forall j :: 0 <= j < |results| ==> results[j] in w
    ensures lines == WebhookLines(w, results)
  {
    lines := [];
    var i := 0;
    while i < |results|
      invariant 0 <= i <= |results|
      invariant lines == WebhookLines(w, results[..i])
    {
      var r := results[i];
      lines := lines + [WebhookLine(r, w[r])];
      i := i + 1;
      WebhookLinesGrow(w, results, i - 1);
    }
    assert results[..i] == results;
  }
}

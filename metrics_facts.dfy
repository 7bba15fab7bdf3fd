/**
 * What the exposition text promises a scraper: it splits back into exactly the
 * lines of the two blocks, and the number after the last space of each sample
 * line is the stored count.
 */
module MetricsFacts {
  import opened Ordering
  import opened Metrics

  // ---------------------------------------------------------------------------
  // Reading a count back

  function DigitValue(c: char): nat {
    if '0' <= c <= '9' then c as int - '0' as int else 0
  }

  /** `int(s)` for a string of decimal digits. */
  function ParseNat(s: string): nat
    decreases |s|
  {
    if s == [] then 0 else 10 * ParseNat(s[..|s| - 1]) + DigitValue(s[|s| - 1])
  }

  lemma {:induction false} ParseNatToString(n: nat)
    ensures ParseNat(NatToString(n)) == n
    decreases n
  {
    var s := NatToString(n);
    if n >= 10 {
      assert s[..|s| - 1] == NatToString(n / 10);
      ParseNatToString(n / 10);
    }
  }

  /** The text after the last space. */
  function LastField(s: string): string
    decreases |s|
  {
    if s == [] then []
    else if s[|s| - 1] == ' ' then []
    else LastField(s[..|s| - 1]) + [s[|s| - 1]]
  }

  lemma {:induction false} LastFieldAfterSpace(p: string, d: string)
    requires ' ' !in d
    ensures LastField(p + " " + d) == d
    decreases |d|
  {
    var s := p + " " + d;
    if d == [] {
      assert s[|s| - 1] == ' ';
    } else {
      var d' := d[..|d| - 1];
      assert s[..|s| - 1] == p + " " + d';
      assert d[|d| - 1] in d;
      LastFieldAfterSpace(p, d');
      assert d == d' + [d[|d| - 1]];
    }
  }

  /** The value a scraper reads from a sample line: the number after its last space. */
  function CountOfLine(line: string): nat {
    ParseNat(LastField(line))
  }

  lemma NoSpaceInNumber(n: nat)
    ensures ' ' !in NatToString(n) && '\n' !in NatToString(n)
  {
  }

  /** Each sample line carries exactly the stored count for its key. */
  lemma LinesCarryCounts(k: HttpKey, result: string, count: nat)
    ensures CountOfLine(HttpLine(k, count)) == count
    ensures CountOfLine(WebhookLine(result, count)) == count
  {
    NoSpaceInNumber(count);
    ParseNatToString(count);
    LastFieldAfterSpace(HttpSeries(k), NatToString(count));
    LastFieldAfterSpace(WebhookSeries(result), NatToString(count));
  }

  // ---------------------------------------------------------------------------
  // Splitting the text back into lines

  /** Every line followed by a newline. */
  function Terminated(ls: seq<string>): string
    decreases |ls|
  {
    if ls == [] then "" else ls[0] + "\n" + Terminated(ls[1..])
  }

  lemma {:induction false} JoinTerminated(ls: seq<string>)
    requires |ls| > 0
    ensures Join(ls, "\n") + "\n" == Terminated(ls)
    decreases |ls|
  {
    if |ls| > 1 {
      JoinTerminated(ls[1..]);
      assert Join(ls, "\n") + "\n" == ls[0] + "\n" + (Join(ls[1..], "\n") + "\n");
    } else {
      assert ls[1..] == [];
    }
  }

  /** The position of the first newline, or the length when there is none. */
  function LineEnd(s: string): (i: nat)
    ensures i <= |s|
    decreases |s|
  {
    if s == [] || s[0] == '\n' then 0 else 1 + LineEnd(s[1..])
  }

  /** `s.split("\n")` for a text whose last line is terminated, without the empty last piece. */
  function SplitLines(s: string): seq<string>
    decreases |s|
  {
    if s == [] then []
    else
      var i := LineEnd(s);
      if i == |s| then [s] else [s[..i]] + SplitLines(s[i + 1..])
  }

  lemma {:induction false} LineEndAt(l: string, rest: string)
    requires '\n' !in l
    ensures LineEnd(l + "\n" + rest) == |l|
    decreases |l|
  {
    var s := l + "\n" + rest;
    if l != [] {
      assert l[0] in l;
      assert s[1..] == l[1..] + "\n" + rest;
      LineEndAt(l[1..], rest);
    }
  }

  lemma {:induction false} SplitTerminated(ls: seq<string>)
    requires forall i :: 0 <= i < |ls| ==> '\n' !in ls[i]
    ensures SplitLines(Terminated(ls)) == ls
    decreases |ls|
  {
    if ls != [] {
      var s := Terminated(ls);
      LineEndAt(ls[0], Terminated(ls[1..]));
      assert s[..|ls[0]|] == ls[0];
      assert s[|ls[0]| + 1..] == Terminated(ls[1..]);
      SplitTerminated(ls[1..]);
      assert ls == [ls[0]] + ls[1..];
    }
  }

  /** Labels that do not break a line. */
  predicate SingleLineLabels(h: map<HttpKey, nat>, w: map<string, nat>) {
    && (forall k :: k in h ==> '\n' !in k.httpMethod && '\n' !in k.path)
    && (forall r :: r in w ==> '\n' !in r)
  }

  lemma BlocksLayout(a: seq<string>, b: seq<string>)
    ensures var ls := Blocks(a, b);
            && |ls| == 4 + |a| + |b|
            && ls[0] == HttpHelp && ls[1] == HttpType
            && ls[|a| + 2] == WebhookHelp && ls[|a| + 3] == WebhookType
            && (forall i :: 0 <= i < |a| ==> ls[2 + i] == a[i])
            && (forall i :: 0 <= i < |b| ==> ls[|a| + 4 + i] == b[i])
  {
  }

  lemma IntToStringOneLine(i: int)
    ensures '\n' !in IntToString(i)
  {
    NoSpaceInNumber(if i < 0 then -i else i);
  }

  lemma SampleLinesOneLine(k: HttpKey, result: string, count: nat)
    requires '\n' !in k.httpMethod && '\n' !in k.path && '\n' !in result
    ensures '\n' !in HttpLine(k, count) && '\n' !in WebhookLine(result, count)
  {
    IntToStringOneLine(k.status);
    NoSpaceInNumber(count);
  }

  lemma HttpBlockOneLine(h: map<HttpKey, nat>, keys: seq<HttpKey>)
    requires forall i :: 0 <= i < |keys| ==> keys[i] in h
    requires forall k :: k in h ==> '\n' !in k.httpMethod && '\n' !in k.path
    ensures forall i :: 0 <= i < |keys| ==> '\n' !in HttpLines(h, keys)[i]
  {
    forall i | 0 <= i < |keys| ensures '\n' !in HttpLines(h, keys)[i] {
      SampleLinesOneLine(keys[i], "", h[keys[i]]);
    }
  }

  lemma WebhookBlockOneLine(w: map<string, nat>, results: seq<string>)
    requires forall i :: 0 <= i < |results| ==> results[i] in w
    requires forall r :: r in w ==> '\n' !in r
    ensures forall i :: 0 <= i < |results| ==> '\n' !in WebhookLines(w, results)[i]
  {
    forall i | 0 <= i < |results| ensures '\n' !in WebhookLines(w, results)[i] {
      SampleLinesOneLine(HttpKey("", "", 0), results[i], w[results[i]]);
    }
  }

  lemma HeadersOneLine()
    ensures '\n' !in HttpHelp && '\n' !in HttpType && '\n' !in WebhookHelp && '\n' !in WebhookType
  {
  }

  lemma BlocksOneLine(a: seq<string>, b: seq<string>)
    requires forall i :: 0 <= i < |a| ==> '\n' !in a[i]
    requires forall i :: 0 <= i < |b| ==> '\n' !in b[i]
    ensures forall i :: 0 <= i < |Blocks(a, b)| ==> '\n' !in Blocks(a, b)[i]
  {
    var ls := Blocks(a, b);
    BlocksLayout(a, b);
    HeadersOneLine();
    forall i | 0 <= i < |ls| ensures '\n' !in ls[i] {
      if 2 <= i < 2 + |a| {
        assert ls[2 + (i - 2)] == a[i - 2];
      } else if 4 + |a| <= i {
        assert ls[|a| + 4 + (i - 4 - |a|)] == b[i - 4 - |a|];
      }
    }
  }

  lemma ExpositionLinesOneLine(h: map<HttpKey, nat>, w: map<string, nat>)
    requires SingleLineLabels(h, w)
    ensures forall i :: 0 <= i < |ExpositionLines(h, w)| ==> '\n' !in ExpositionLines(h, w)[i]
  {
    var keys := SortedHttpKeys(h);
    var results := SortedResults(w);
    HttpBlockOneLine(h, keys);
    WebhookBlockOneLine(w, results);
    BlocksOneLine(HttpLines(h, keys), WebhookLines(w, results));
  }

  /**
   * The exposition text ends with a newline and splits back into exactly its
   * lines: the HTTP header, one line per HTTP key in sorted order, the webhook
   * header, one line per result in sorted order.
   */
  lemma ExpositionSplitsIntoLines(h: map<HttpKey, nat>, w: map<string, nat>)
    requires SingleLineLabels(h, w)
    ensures Exposition(h, w)[|Exposition(h, w)| - 1] == '\n'
    ensures SplitLines(Exposition(h, w)) == ExpositionLines(h, w)
  {
    var ls := ExpositionLines(h, w);
    JoinTerminated(ls);
    ExpositionLinesOneLine(h, w);
    SplitTerminated(ls);
  }

  /** Positions in a concatenation of four parts, whatever the parts hold. */
  lemma LayoutAt<T>(p: seq<T>, a: seq<T>, q: seq<T>, b: seq<T>, i: int)
    ensures |p + a + q + b| == |p| + |a| + |q| + |b|
    ensures 0 <= i < |a| ==> (p + a + q + b)[|p| + i] == a[i]
    ensures 0 <= i < |b| ==> (p + a + q + b)[|p| + |a| + |q| + i] == b[i]
  {
  }

  lemma WebhookBlockAt(a: seq<string>, b: seq<string>, j: int)
    requires 0 <= j < |b|
    ensures |Blocks(a, b)| == |a| + 4 + |b| && Blocks(a, b)[|a| + 4 + j] == b[j]
  {
    LayoutAt(HttpHeader, a, WebhookHeader, b, j);
  }

  lemma HttpBlockAt(a: seq<string>, b: seq<string>, i: int)
    requires 0 <= i < |a|
    ensures Blocks(a, b)[2 + i] == a[i]
  {
    LayoutAt(HttpHeader, a, WebhookHeader, b, i);
  }

  lemma HttpLineAt(h: map<HttpKey, nat>, w: map<string, nat>, i: int)
    requires 0 <= i < |h.Keys|
    ensures var keys := SortedHttpKeys(h);
            ExpositionLines(h, w)[2 + i] == HttpLine(keys[i], h[keys[i]])
  {
    var keys := SortedHttpKeys(h);
    var hl := HttpLines(h, keys);
    HttpBlockAt(hl, WebhookLines(w, SortedResults(w)), i);
  }

  /** Every HTTP key has a line in the HTTP block, with its stored count. */
  lemma HttpKeyListed(h: map<HttpKey, nat>, w: map<string, nat>, k: HttpKey)
    requires k in h
    ensures exists i :: 2 <= i < |h.Keys| + 2 && ExpositionLines(h, w)[i] == HttpLine(k, h[k])
  {
    var keys := SortedHttpKeys(h);
    var j :| 0 <= j < |keys| && keys[j] == k;
    HttpLineAt(h, w, j);
  }

  lemma ResultAt(h: map<HttpKey, nat>, w: map<string, nat>, j: int)
    requires 0 <= j < |w.Keys|
    ensures var results := SortedResults(w);
            && |ExpositionLines(h, w)| == |h.Keys| + 4 + |w.Keys|
            && ExpositionLines(h, w)[|h.Keys| + 4 + j] == WebhookLine(results[j], w[results[j]])
  {
    var results := SortedResults(w);
    var a := HttpLines(h, SortedHttpKeys(h));
    var b := WebhookLines(w, results);
    assert ExpositionLines(h, w) == Blocks(a, b);
    assert |a| == |h.Keys| by {
      HttpBlockLength(h);
    }
    assert results[j] in w && |b| == |w.Keys| && b[j] == WebhookLine(results[j], w[results[j]]) by {
      WebhookLineAt(w, j);
    }
    WebhookBlockAt(a, b, j);
  }

  lemma HttpBlockLength(h: map<HttpKey, nat>)
    ensures |HttpLines(h, SortedHttpKeys(h))| == |h.Keys|
  {
  }

  lemma WebhookLineAt(w: map<string, nat>, j: int)
    requires 0 <= j < |w.Keys|
    ensures var results := SortedResults(w);
            && results[j] in w
            && |WebhookLines(w, results)| == |w.Keys|
            && WebhookLines(w, results)[j] == WebhookLine(results[j], w[results[j]])
  {
    var results := SortedResults(w);
    assert results[j] in w;
  }

  /** Every webhook result has a line in the webhook block, with its stored count. */
  lemma ResultListed(h: map<HttpKey, nat>, w: map<string, nat>, r: string)
    requires r in w
    ensures exists i :: |h.Keys| + 4 <= i < |ExpositionLines(h, w)| && ExpositionLines(h, w)[i] == WebhookLine(r, w[r])
  {
    var results := SortedResults(w);
    var j :| 0 <= j < |results| && results[j] == r;
    ResultAt(h, w, j);
    assert ExpositionLines(h, w)[|h.Keys| + 4 + j] == WebhookLine(r, w[r]);
  }

  /** Lines of the HTTP block appear in increasing key order. */
  lemma HttpLinesSorted(h: map<HttpKey, nat>, w: map<string, nat>, i: int, j: int)
    requires 0 <= i < j < |h.Keys|
    ensures var keys := SortedHttpKeys(h);
            HttpKeyLess(keys[i], keys[j]) && ExpositionLines(h, w)[2 + i] == HttpLine(keys[i], h[keys[i]])
  {
    HttpLineAt(h, w, i);
  }

  // ---------------------------------------------------------------------------
  // Counters

  /**
   * The registry stores only incremented keys, so the sample line of every stored
   * key (each one listed in the exposition, by `HttpKeyListed` and `ResultListed`)
   * reads at least 1.
   */
  lemma NoZeroSamples(m: Metrics)
    requires m.Valid()
    ensures forall k :: k in m.httpRequests ==> CountOfLine(HttpLine(k, m.httpRequests[k])) >= 1
    ensures forall r :: r in m.webhookRequests ==> CountOfLine(WebhookLine(r, m.webhookRequests[r])) >= 1
  {
    forall k | k in m.httpRequests
      ensures CountOfLine(HttpLine(k, m.httpRequests[k])) >= 1
    {
      LinesCarryCounts(k, "", m.httpRequests[k]);
    }
    forall r | r in m.webhookRequests
      ensures CountOfLine(WebhookLine(r, m.webhookRequests[r])) >= 1
    {
      LinesCarryCounts(HttpKey("", "", 0), r, m.webhookRequests[r]);
    }
  }
}

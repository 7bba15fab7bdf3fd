/**
 * The message store (app/storage.py, class Database) over one `messages` table
 * whose primary key is `message_id`.
 *
 * The table is a map from `message_id` to the row's other columns. Inserting is
 * `INSERT OR IGNORE`: a new key adds one row, an existing key changes nothing
 * and is reported as a duplicate, and a failure of the storage engine (the
 * `fault` input) is caught and reported. The read-only queries are functions
 * over the table: `GetMessages` filters, orders by (ts, message_id), counts and
 * takes a LIMIT/OFFSET window; `GetStats` aggregates.
 */
module Storage {
  import opened Wrappers
  import opened Ordering
  import opened Models

  /** The columns of a row other than its key. */
  datatype Record = Record(from: string, to: string, ts: string, text: Option<string>, createdAt: string)

  /** The `messages` table, keyed by `message_id`. */
  type Table = map<string, Record>

  /** A row as a query returns it. */
  datatype Message = Message(messageId: string, from: string, to: string, ts: string, text: Option<string>, createdAt: string)

  function RecordOf(p: Payload, createdAt: string): Record {
    Record(p.from, p.to, p.ts, p.text, createdAt)
  }

  function MessageOf(t: Table, id: string): Message
    requires id in t
  {
    Message(id, t[id].from, t[id].to, t[id].ts, t[id].text, t[id].createdAt)
  }

  // ---------------------------------------------------------------------------
  // insert_message

  /** The `(success, is_duplicate)` pair insert_message returns. */
  datatype InsertOutcome = InsertOutcome(success: bool, isDuplicate: bool)

  /**
   * `INSERT OR IGNORE` of one payload stamped with `createdAt`; `fault` is true when
   * the storage engine raises, which the source catches and reports as (False, False).
   */
  function InsertOrIgnore(t: Table, p: Payload, createdAt: string, fault: bool): (r: (InsertOutcome, Table))
    ensures r.0.success == !fault
    ensures r.0.isDuplicate ==> r.0.success
    ensures r.0.success ==> (r.0.isDuplicate <==> p.messageId in t)
    ensures r.1.Keys == if r.0.success then t.Keys + {p.messageId} else t.Keys
    ensures forall k :: k in t ==> r.1[k] == t[k]
    ensures r.0.success && !r.0.isDuplicate ==> r.1[p.messageId] == RecordOf(p, createdAt)
  {
    if fault then (InsertOutcome(false, false), t)
    else if p.messageId in t then (InsertOutcome(true, true), t)
    else (InsertOutcome(true, false), t[p.messageId := RecordOf(p, createdAt)])
  }

  class Database {
    var rows: Table

    /** Opening the store creates the table if it does not exist and leaves any existing rows alone. */
    constructor (existing: Table)
      ensures rows == existing
    {
      rows := existing;
    }

    method InsertMessage(p: Payload, createdAt: string, fault: bool) returns (success: bool, isDuplicate: bool)
      modifies this
      ensures (InsertOutcome(success, isDuplicate), rows) == InsertOrIgnore(old(rows), p, createdAt, fault)
    {
      if fault {
        return false, false;
      }
      if p.messageId in rows {
        return true, true;
      }
      rows := rows[p.messageId := RecordOf(p, createdAt)];
      return true, false;
    }
  }

  // ---------------------------------------------------------------------------
  // get_messages: filters

  /** A filter is applied only when it is present and non-empty (Python truthiness). */
  predicate Given(o: Option<string>) {
    o.Some? && o.value != ""
  }

  datatype Filters = Filters(from: Option<string>, since: Option<string>, q: Option<string>)

  /** SQLite's default LIKE folds ASCII letters only. */
  function FoldAscii(c: char): char {
    if 'A' <= c <= 'Z' then (c as int + 32) as char else c
  }

  /**
   * SQLite `s LIKE p` with no ESCAPE clause: `%` matches any run of characters,
   * `_` exactly one, and every other character itself up to ASCII case.
   */
  predicate Like(p: string, s: string): (ok: bool)
    ensures ok && '%' !in p ==> |s| == |p|
    decreases |p|
  {
    if p == [] then s == []
    else if p[0] == '%' then
      exists k :: 0 <= k <= |s| && Like(p[1..], s[k..])
    else if p[0] == '_' then |s| > 0 && Like(p[1..], s[1..])
    else |s| > 0 && FoldAscii(p[0]) == FoldAscii(s[0]) && Like(p[1..], s[1..])
  }

  /** The WHERE clause: the given filters, combined with AND; a row without text never matches `q`. */
  predicate Matches(f: Filters, r: Record): (ok: bool)
    ensures !Given(f.from) && !Given(f.since) && !Given(f.q) ==> ok
    ensures ok && Given(f.from) ==> r.from == f.from.value
    ensures Given(f.q) && r.text.None? ==> !ok
  {
    && (Given(f.from) ==> r.from == f.from.value)
    && (Given(f.since) ==> StrLessEq(f.since.value, r.ts))
    && (Given(f.q) ==> r.text.Some? && Like("%" + f.q.value + "%", r.text.value))
  }

  ghost function FilteredIds(t: Table, f: Filters): set<string> {
    set k | k in t && Matches(f, t[k])
  }

  // ---------------------------------------------------------------------------
  // get_messages: ORDER BY ts ASC, message_id ASC

  predicate Before(t: Table, a: string, b: string) {
    a in t && b in t && (StrLess(t[a].ts, t[b].ts) || (t[a].ts == t[b].ts && StrLess(a, b)))
  }

  function ByTsThenId(t: Table): (string, string) -> bool {
    (a, b) => Before(t, a, b)
  }

  predicate MessageBefore(m: Message, n: Message) {
    StrLess(m.ts, n.ts) || (m.ts == n.ts && StrLess(m.messageId, n.messageId))
  }

  /** The order by (ts, message_id) never ties on distinct keys. */
  lemma ByTsThenIdIsTotal(t: Table, s: set<string>)
    requires s <= t.Keys
    ensures StrictTotalOn(s, ByTsThenId(t))
  {
    var lt := ByTsThenId(t);
    forall x | x in s ensures !lt(x, x) {
      StrLessIrreflexive(t[x].ts);
      StrLessIrreflexive(x);
    }
    forall x, y, z | x in s && y in s && z in s && lt(x, y) && lt(y, z) ensures lt(x, z) {
      if StrLess(t[x].ts, t[y].ts) && StrLess(t[y].ts, t[z].ts) {
        StrLessTransitive(t[x].ts, t[y].ts, t[z].ts);
      } else if t[x].ts == t[y].ts && t[y].ts == t[z].ts {
        StrLessTransitive(x, y, z);
      }
    }
    forall x, y | x in s && y in s && x != y ensures lt(x, y) || lt(y, x) {
      StrLessTotal(t[x].ts, t[y].ts);
      StrLessTotal(x, y);
    }
  }

  /** The keys of the matching rows in result order. */
  ghost function Listing(t: Table, f: Filters): (ids: seq<string>)
    ensures SortedBy(ids, ByTsThenId(t)) && Enumerates(ids, FilteredIds(t, f))
    ensures |ids| == |FilteredIds(t, f)|
  {
    ByTsThenIdIsTotal(t, FilteredIds(t, f));
    SortedSeq(FilteredIds(t, f), ByTsThenId(t))
  }

  /**
   * Where a window over `n` rows starts: SQLite treats a negative OFFSET as zero,
   * and an OFFSET past the end leaves nothing.
   */
  function WindowStart(n: nat, offset: int): (s: nat)
    ensures s <= n
    ensures offset <= 0 ==> s == 0
    ensures 0 <= offset <= n ==> s == offset
    ensures offset >= n ==> s == n
  {
    if offset <= 0 then 0 else if offset >= n then n else offset
  }

  /** `LIMIT limit OFFSET offset` on an ordered result; SQLite treats a negative LIMIT as no limit. */
  function Window<T>(xs: seq<T>, limit: int, offset: int): (w: seq<T>)
    ensures var s := WindowStart(|xs|, offset);
            && |w| == (if limit < 0 || s + limit >= |xs| then |xs| - s else limit)
            && forall i :: 0 <= i < |w| ==> w[i] == xs[s + i]
  {
    var s := WindowStart(|xs|, offset);
    var e := if limit < 0 || s + limit >= |xs| then |xs| else s + limit;
    xs[s..e]
  }

  datatype MessagesPage = MessagesPage(data: seq<Message>, total: nat)

  /** The rows under the keys `ids`, in that order. */
  function MessagesOf(t: Table, ids: seq<string>): (ms: seq<Message>)
    requires forall i :: 0 <= i < |ids| ==> ids[i] in t
    ensures |ms| == |ids| && forall i :: 0 <= i < |ids| ==> ms[i] == MessageOf(t, ids[i])
  {
    seq(|ids|, i requires 0 <= i < |ids| => MessageOf(t, ids[i]))
  }

  /**
   * Database.get_messages: the matching rows, ordered by (ts, message_id), cut to the
   * window; `total` counts every matching row whatever the window.
   */
  ghost function GetMessages(t: Table, limit: int, offset: int, f: Filters): (r: MessagesPage)
    ensures r.total == |FilteredIds(t, f)|
    ensures limit >= 0 ==> |r.data| <= limit
    ensures forall i :: 0 <= i < |r.data| ==>
              r.data[i].messageId in t && r.data[i] == MessageOf(t, r.data[i].messageId)
              && Matches(f, t[r.data[i].messageId])
    ensures forall i, j :: 0 <= i < j < |r.data| ==> MessageBefore(r.data[i], r.data[j])
  {
    var ids := Listing(t, f);
    var page := Window(ids, limit, offset);
    WindowKeeps(ids, limit, offset, ByTsThenId(t), FilteredIds(t, f));
    PageRows(t, f, page);
    MessagesPage(MessagesOf(t, page), |ids|)
  }

  /** A window of a sorted listing of `s` is sorted and holds only elements of `s`. */
  lemma WindowKeeps<T>(xs: seq<T>, limit: int, offset: int, lt: (T, T) -> bool, s: set<T>)
    requires SortedBy(xs, lt) && Enumerates(xs, s)
    ensures var w := Window(xs, limit, offset);
            SortedBy(w, lt) && forall i :: 0 <= i < |w| ==> w[i] in s
  {
    var w := Window(xs, limit, offset);
    var st := WindowStart(|xs|, offset);
    forall i, j | 0 <= i < j < |w| ensures lt(w[i], w[j]) {
      assert w[i] == xs[st + i] && w[j] == xs[st + j];
    }
    forall i | 0 <= i < |w| ensures w[i] in s {
      assert w[i] == xs[st + i];
    }
  }

  /** The rows under keys of matching messages, listed in (ts, message_id) order. */
  lemma PageRows(t: Table, f: Filters, page: seq<string>)
    requires SortedBy(page, ByTsThenId(t))
    requires forall i :: 0 <= i < |page| ==> page[i] in t && Matches(f, t[page[i]])
    ensures var ms := MessagesOf(t, page);
            && (forall i :: 0 <= i < |ms| ==>
                  ms[i].messageId in t && ms[i] == MessageOf(t, ms[i].messageId) && Matches(f, t[ms[i].messageId]))
            && (forall i, j :: 0 <= i < j < |ms| ==> MessageBefore(ms[i], ms[j]))
  {
    var ms := MessagesOf(t, page);
    forall i, j | 0 <= i < j < |ms| ensures MessageBefore(ms[i], ms[j]) {
      assert Before(t, page[i], page[j]);
    }
  }

  // ---------------------------------------------------------------------------
  // get_stats

  datatype SenderCount = SenderCount(from: string, count: nat)

  datatype Stats = Stats(
    totalMessages: nat,
    sendersCount: nat,
    messagesPerSender: seq<SenderCount>,
    firstMessageTs: Option<string>,
    lastMessageTs: Option<string>)

  const TopSendersLimit: nat := 10

  ghost function Senders(t: Table): set<string> {
    set k | k in t :: t[k].from
  }

  /** The number of rows whose sender is `s`. */
  ghost function SentBy(t: Table, s: string): nat {
    |RowsFrom(t, s)|
  }

  ghost function RowsFrom(t: Table, s: string): set<string> {
    set k | k in t && t[k].from == s
  }

  ghost function TsValues(t: Table): set<string> {
    set k | k in t :: t[k].ts
  }

  function Froms(top: seq<SenderCount>): set<string> {
    set e | e in top :: e.from
  }

  /**
   * What `GROUP BY from_msisdn ORDER BY count DESC LIMIT 10` promises: up to ten
   * distinct senders with their exact counts, counts non-increasing, and no sender
   * left out that has more messages than one listed. The order among equal
   * counts is not promised.
   */
  ghost predicate IsTopSenderList(t: Table, top: seq<SenderCount>) {
    && |top| == (if |Senders(t)| < TopSendersLimit then |Senders(t)| else TopSendersLimit)
    && (forall i :: 0 <= i < |top| ==> top[i].from in Senders(t) && top[i].count == SentBy(t, top[i].from))
    && (forall i, j :: 0 <= i < j < |top| ==> top[i].from != top[j].from && top[i].count >= top[j].count)
    && (forall s, i :: s in Senders(t) && s !in Froms(top) && 0 <= i < |top| ==> SentBy(t, s) <= top[i].count)
  }

  /** The tie order this model picks: more messages first, then the smaller sender. */
  ghost predicate Outranks(t: Table, a: string, b: string) {
    SentBy(t, a) > SentBy(t, b) || (SentBy(t, a) == SentBy(t, b) && StrLess(a, b))
  }

  ghost function ByCountDesc(t: Table): (string, string) -> bool {
    (a, b) => Outranks(t, a, b)
  }

  lemma ByCountDescIsTotal(t: Table, s: set<string>)
    ensures StrictTotalOn(s, ByCountDesc(t))
  {
    var lt := ByCountDesc(t);
    forall x | x in s ensures !lt(x, x) {
      StrLessIrreflexive(x);
    }
    forall x, y, z | x in s && y in s && z in s && lt(x, y) && lt(y, z) ensures lt(x, z) {
      if SentBy(t, x) == SentBy(t, y) == SentBy(t, z) {
        StrLessTransitive(x, y, z);
      }
    }
    forall x, y | x in s && y in s && x != y ensures lt(x, y) || lt(y, x) {
      StrLessTotal(x, y);
    }
  }

  /** Every sender, in `Outranks` order. */
  ghost function Ranked(t: Table): (ranked: seq<string>)
    ensures SortedBy(ranked, ByCountDesc(t)) && Enumerates(ranked, Senders(t))
    ensures |ranked| == |Senders(t)|
  {
    ByCountDescIsTotal(t, Senders(t));
    SortedSeq(Senders(t), ByCountDesc(t))
  }

  ghost function TopSenders(t: Table): (top: seq<SenderCount>)
    ensures IsTopSenderList(t, top)
  {
    var ranked := Ranked(t);
    var n := if |ranked| < TopSendersLimit then |ranked| else TopSendersLimit;
    var top := seq(n, i requires 0 <= i < n => SenderCount(ranked[i], SentBy(t, ranked[i])));
    TopSendersOutrankRest(t, ranked, top);
    top
  }

  lemma TopSendersOutrankRest(t: Table, ranked: seq<string>, top: seq<SenderCount>)
    requires SortedBy(ranked, ByCountDesc(t)) && Enumerates(ranked, Senders(t)) && |ranked| == |Senders(t)|
    requires |top| == (if |ranked| < TopSendersLimit then |ranked| else TopSendersLimit)
    requires forall i :: 0 <= i < |top| ==> top[i] == SenderCount(ranked[i], SentBy(t, ranked[i]))
    ensures IsTopSenderList(t, top)
  {
    forall i, j | 0 <= i < j < |top|
      ensures top[i].from != top[j].from && top[i].count >= top[j].count
    {
      assert Outranks(t, ranked[i], ranked[j]);
      StrLessIrreflexive(ranked[i]);
    }
    forall s, i | s in Senders(t) && s !in Froms(top) && 0 <= i < |top|
      ensures SentBy(t, s) <= top[i].count
    {
      var j :| 0 <= j < |ranked| && ranked[j] == s;
      assert Outranks(t, ranked[i], ranked[j]);
    }
  }

  /** The least and the greatest `ts`, or `None` on an empty table (SQL MIN and MAX). */
  ghost function TsRange(t: Table): (r: (Option<string>, Option<string>))
    ensures r.0.None? <==> t == map[]
    ensures r.1.None? <==> t == map[]
    ensures r.0.Some? ==> r.0.value in TsValues(t) && forall u :: u in TsValues(t) ==> StrLessEq(r.0.value, u)
    ensures r.1.Some? ==> r.1.value in TsValues(t) && forall u :: u in TsValues(t) ==> StrLessEq(u, r.1.value)
  {
    if t == map[] then (None, None)
    else
      var k :| k in t;
      assert t[k].ts in TsValues(t);
      StrOrderOn(TsValues(t));
      var ordered := SortedSeq(TsValues(t), StrLess);
      SortedEnds(ordered, TsValues(t));
      (Some(ordered[0]), Some(ordered[|ordered| - 1]))
  }

  /** The first and last of a sorted listing are the least and the greatest element. */
  lemma SortedEnds(q: seq<string>, s: set<string>)
    requires SortedBy(q, StrLess) && Enumerates(q, s) && |q| > 0
    ensures q[0] in s && q[|q| - 1] in s
    ensures forall u :: u in s ==> StrLessEq(q[0], u) && StrLessEq(u, q[|q| - 1])
  {
    var n := |q|;
    forall u | u in s ensures StrLessEq(q[0], u) && StrLessEq(u, q[n - 1]) {
      var j :| 0 <= j < n && q[j] == u;
      assert j == 0 || StrLess(q[0], q[j]);
      assert j == n - 1 || StrLess(q[j], q[n - 1]);
    }
  }

  /** Database.get_stats. */
  ghost function GetStats(t: Table): (r: Stats)
    ensures r.totalMessages == |t|
    ensures r.sendersCount == |Senders(t)|
    ensures IsTopSenderList(t, r.messagesPerSender)
    ensures r.firstMessageTs.None? <==> t == map[]
    ensures r.lastMessageTs.None? <==> t == map[]
    ensures r.firstMessageTs.Some? ==>
              r.firstMessageTs.value in TsValues(t) && forall u :: u in TsValues(t) ==> StrLessEq(r.firstMessageTs.value, u)
    ensures r.lastMessageTs.Some? ==>
              r.lastMessageTs.value in TsValues(t) && forall u :: u in TsValues(t) ==> StrLessEq(u, r.lastMessageTs.value)
  {
    var (first, last) := TsRange(t);
    Stats(|t|, |Senders(t)|, TopSenders(t), first, last)
  }
}

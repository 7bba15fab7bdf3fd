/** Properties of the message store that relate several calls, or name an input. */
module StorageFacts {
  import opened Wrappers
  import opened Ordering
  import opened Models
  import opened Storage

  // ---------------------------------------------------------------------------
  // insert_message

  /**
   * Retrying a delivery is harmless: once a message id is stored, inserting any
   * payload with that id again reports a duplicate and keeps the first row,
   * including its original `created_at`.
   */
  lemma RetryIsDuplicate(t: Table, p: Payload, c1: string, retry: Payload, c2: string)
    requires retry.messageId == p.messageId
    ensures var (first, t1) := InsertOrIgnore(t, p, c1, false);
            var (second, t2) := InsertOrIgnore(t1, retry, c2, false);
            && first.success && second.success && second.isDuplicate
            && t2 == t1
            && t2[p.messageId] == (if p.messageId in t then t[p.messageId] else RecordOf(p, c1))
  {
  }

  /** A new message adds exactly one row, and one message to its sender's count and to no other sender's. */
  lemma NewMessageCounted(t: Table, p: Payload, c: string)
    requires p.messageId !in t
    ensures var t1 := InsertOrIgnore(t, p, c, false).1;
            && GetStats(t1).totalMessages == GetStats(t).totalMessages + 1
            && SentBy(t1, p.from) == SentBy(t, p.from) + 1
            && (forall s :: s != p.from ==> SentBy(t1, s) == SentBy(t, s))
  {
    var t1 := InsertOrIgnore(t, p, c, false).1;
    assert t1 == t[p.messageId := RecordOf(p, c)];
    SenderCountsAfterAdd(t, p.messageId, RecordOf(p, c));
    TotalAfterAdd(t, p.messageId, RecordOf(p, c));
  }

  lemma TotalAfterAdd(t: Table, id: string, r: Record)
    requires id !in t
    ensures GetStats(t[id := r]).totalMessages == GetStats(t).totalMessages + 1
  {
  }

  /** Adding a row adds one to its sender's count and to no one else's. */
  lemma SenderCountsAfterAdd(t: Table, id: string, r: Record)
    requires id !in t
    ensures SentBy(t[id := r], r.from) == SentBy(t, r.from) + 1
    ensures forall s :: s != r.from ==> SentBy(t[id := r], s) == SentBy(t, s)
  {
    var t1 := t[id := r];
    assert RowsFrom(t1, r.from) == RowsFrom(t, r.from) + {id};
    forall s | s != r.from ensures SentBy(t1, s) == SentBy(t, s) {
      assert RowsFrom(t1, s) == RowsFrom(t, s);
    }
  }


  /** The sender of a new message is counted among the distinct senders. */
  lemma NewMessageSender(t: Table, p: Payload, c: string)
    requires p.messageId !in t
    ensures Senders(InsertOrIgnore(t, p, c, false).1) == Senders(t) + {p.from}
  {
    var t1 := InsertOrIgnore(t, p, c, false).1;
    assert t1[p.messageId].from == p.from;
  }

  // ---------------------------------------------------------------------------
  // LIKE

  predicate NoWildcards(q: string) {
    forall i :: 0 <= i < |q| ==> q[i] != '%' && q[i] != '_'
  }

  /** Equal up to ASCII case. */
  predicate FoldEq(a: string, b: string) {
    |a| == |b| && forall i :: 0 <= i < |a| ==> FoldAscii(a[i]) == FoldAscii(b[i])
  }

  predicate OccursAt(s: string, q: string, k: int) {
    0 <= k <= |s| - |q| && FoldEq(s[k..k + |q|], q)
  }

  /** `q` occurs in `s` up to ASCII case. */
  predicate ContainsFolded(s: string, q: string) {
    exists k :: 0 <= k <= |s| && OccursAt(s, q, k)
  }

  lemma {:induction false} LikePrefix(q: string, u: string)
    requires NoWildcards(q)
    ensures Like(q + "%", u) <==> |u| >= |q| && FoldEq(u[..|q|], q)
    decreases |q|
  {
    if q == [] {
      assert q + "%" == "%";
      assert Like([], u[|u|..]);
    } else if |u| == 0 {
      assert (q + "%")[0] == q[0];
    } else {
      assert (q + "%")[0] == q[0] && (q + "%")[1..] == q[1..] + "%";
      assert NoWildcards(q[1..]);
      LikePrefix(q[1..], u[1..]);
      if |u| >= |q| {
        assert forall i :: 1 <= i < |q| ==> u[..|q|][i] == u[1..][..|q| - 1][i - 1] && q[i] == q[1..][i - 1];
      }
    }
  }

  /**
   * The `q` filter is a case-insensitive (ASCII) substring test when `q` holds no
   * `%` or `_`; those two characters act as wildcards, as `UnderscoreIsAWildcard` shows.
   */
  lemma LikeIsSubstringWithoutWildcards(q: string, s: string)
    requires NoWildcards(q)
    ensures Like("%" + q + "%", s) <==> ContainsFolded(s, q)
  {
    var p := "%" + q + "%";
    assert p[0] == '%' && p[1..] == q + "%";
    if Like(p, s) {
      var k :| 0 <= k <= |s| && Like(p[1..], s[k..]);
      LikePrefix(q, s[k..]);
      assert s[k..][..|q|] == s[k..k + |q|];
      assert OccursAt(s, q, k);
    }
    if ContainsFolded(s, q) {
      var k :| 0 <= k <= |s| && OccursAt(s, q, k);
      LikePrefix(q, s[k..]);
      assert s[k..][..|q|] == s[k..k + |q|];
      assert Like(p[1..], s[k..]);
    }
  }

  /** A search for "a_c" also finds "aXc", which does not contain it. */
  lemma UnderscoreIsAWildcard()
    ensures Matches(Filters(None, None, Some("a_c")), Record("+1", "+2", "t", Some("aXc"), "c"))
    ensures !ContainsFolded("aXc", "a_c")
  {
    var p := "%" + "a_c" + "%";
    assert p[0] == '%' && p[1..] == "a_c%";
    UnderscoreStep();
    assert Like(p[1..], "aXc"[0..]);
    UnderscoreNotContained();
  }

  lemma UnderscoreNotContained()
    ensures !ContainsFolded("aXc", "a_c")
  {
    assert FoldAscii('X') == 'x' && FoldAscii('_') == '_';
    forall k | 0 <= k <= 0 ensures !OccursAt("aXc", "a_c", k) {
      assert "aXc"[k..k + 3][1] == 'X';
    }
  }

  /** "a_c%" matches "aXc": the `_` takes the `X`. */
  lemma UnderscoreStep()
    ensures Like("a_c%", "aXc")
  {
    TrailingPercentStep();
    var p := "a_c%";
    assert p[1..] == "_c%" && "aXc"[1..] == "Xc";
    assert "_c%"[1..] == "c%" && "Xc"[1..] == "c";
  }

  /** "c%" matches "c", the `%` taking nothing. */
  lemma TrailingPercentStep()
    ensures Like("c%", "c")
  {
    assert "%"[1..] == [] && ""[0..] == "";
    assert Like("%", "");
    assert "c%"[1..] == "%" && "c"[1..] == "";
  }

  // ---------------------------------------------------------------------------
  // get_messages

  /** A timestamp with a fraction of a second sorts before the whole second it lies in. */
  lemma FractionSortsFirst(second: string, fraction: string)
    ensures StrLess(second + "." + fraction + "Z", second + "Z")
  {
    assert second + "." + fraction + "Z" == second + ("." + fraction + "Z");
    StrLessCommonPrefix(second, "." + fraction + "Z", "Z");
  }

  /**
   * So `since` set to a whole second excludes a message stamped later in that same
   * second, since both are compared as text.
   */
  lemma SinceExcludesLaterFraction(second: string, fraction: string, r: Record)
    requires r.ts == second + "." + fraction + "Z"
    ensures !Matches(Filters(None, Some(second + "Z"), None), r)
  {
    FractionSortsFirst(second, fraction);
    StrLessAsymmetric(r.ts, second + "Z");
    StrLessIrreflexive(r.ts);
  }

  /** `since` is inclusive: a message stamped exactly then is listed. */
  lemma SinceIsInclusive(since: string, r: Record)
    requires r.ts == since
    ensures Matches(Filters(None, Some(since), None), r)
  {
  }

  /** Absent and empty filters both leave every row in. */
  lemma NoFilterKeepsAll(t: Table, f: Filters)
    requires !Given(f.from) && !Given(f.since) && !Given(f.q)
    ensures FilteredIds(t, f) == t.Keys
  {
  }

  lemma ListingIsDistinct(t: Table, f: Filters)
    ensures forall i, j :: 0 <= i < j < |Listing(t, f)| ==> Listing(t, f)[i] != Listing(t, f)[j]
  {
    var ids := Listing(t, f);
    forall i, j | 0 <= i < j < |ids| ensures ids[i] != ids[j] {
      assert Before(t, ids[i], ids[j]);
      StrLessIrreflexive(t[ids[i]].ts);
      StrLessIrreflexive(ids[i]);
    }
  }

  /** A page is the rows under a window of the full listing. */
  lemma PageIsWindow(t: Table, limit: int, offset: int, f: Filters)
    ensures var ids := Listing(t, f);
            forall i :: 0 <= i < |ids| ==> ids[i] in t
    ensures GetMessages(t, limit, offset, f).data == MessagesOf(t, Window(Listing(t, f), limit, offset))
  {
  }

  /** Two consecutive windows of the same size together are the window of twice that size. */
  lemma WindowsTile<T>(xs: seq<T>, limit: int, offset: int)
    requires limit >= 0 && offset >= 0
    ensures Window(xs, limit, offset) + Window(xs, limit, offset + limit) == Window(xs, 2 * limit, offset)
  {
    var a := Window(xs, limit, offset);
    var b := Window(xs, limit, offset + limit);
    var c := Window(xs, 2 * limit, offset);
    assert |a + b| == |c|;
    forall i | 0 <= i < |c| ensures (a + b)[i] == c[i] {
      if i >= |a| {
        assert b[i - |a|] == xs[WindowStart(|xs|, offset + limit) + (i - |a|)];
      }
    }
  }

  lemma MessagesOfConcat(t: Table, a: seq<string>, b: seq<string>)
    requires forall i :: 0 <= i < |a| ==> a[i] in t
    requires forall i :: 0 <= i < |b| ==> b[i] in t
    ensures MessagesOf(t, a + b) == MessagesOf(t, a) + MessagesOf(t, b)
  {
    var ab := a + b;
    assert forall i :: |a| <= i < |ab| ==> ab[i] == b[i - |a|];
  }

  /** Two consecutive pages of the same size together are the page of twice that size. */
  lemma ConsecutivePagesTile(t: Table, limit: int, offset: int, f: Filters)
    requires limit >= 0 && offset >= 0
    ensures GetMessages(t, limit, offset, f).data + GetMessages(t, limit, offset + limit, f).data
            == GetMessages(t, 2 * limit, offset, f).data
  {
    PageIsWindow(t, limit, offset, f);
    PageIsWindow(t, limit, offset + limit, f);
    PageIsWindow(t, 2 * limit, offset, f);
    RowsOfWindowsTile(t, Listing(t, f), limit, offset);
  }

  lemma RowsOfWindowsTile(t: Table, ids: seq<string>, limit: int, offset: int)
    requires limit >= 0 && offset >= 0
    requires forall i :: 0 <= i < |ids| ==> ids[i] in t
    ensures MessagesOf(t, Window(ids, limit, offset)) + MessagesOf(t, Window(ids, limit, offset + limit))
            == MessagesOf(t, Window(ids, 2 * limit, offset))
  {
    var wa := Window(ids, limit, offset);
    var wb := Window(ids, limit, offset + limit);
    WindowsTile(ids, limit, offset);
    forall i | 0 <= i < |wa| ensures wa[i] in t {
      assert wa[i] == ids[WindowStart(|ids|, offset) + i];
    }
    forall i | 0 <= i < |wb| ensures wb[i] in t {
      assert wb[i] == ids[WindowStart(|ids|, offset + limit) + i];
    }
    MessagesOfConcat(t, wa, wb);
  }

  /** Two consecutive pages of the same size never repeat a message. */
  lemma ConsecutivePagesDisjoint(t: Table, limit: int, offset: int, f: Filters)
    requires limit >= 0 && offset >= 0
    ensures var a := GetMessages(t, limit, offset, f).data;
            var b := GetMessages(t, limit, offset + limit, f).data;
            forall i, j :: 0 <= i < |a| && 0 <= j < |b| ==> a[i].messageId != b[j].messageId
  {
    var ids := Listing(t, f);
    var wa := Window(ids, limit, offset);
    var wb := Window(ids, limit, offset + limit);
    PageIsWindow(t, limit, offset, f);
    PageIsWindow(t, limit, offset + limit, f);
    ListingIsDistinct(t, f);
    WindowsDisjoint(ids, limit, offset);
  }

  /** Consecutive windows of a list without repeats share no element. */
  lemma WindowsDisjoint<T>(xs: seq<T>, limit: int, offset: int)
    requires limit >= 0 && offset >= 0
    requires forall i, j :: 0 <= i < j < |xs| ==> xs[i] != xs[j]
    ensures var wa := Window(xs, limit, offset);
            var wb := Window(xs, limit, offset + limit);
            forall i, j :: 0 <= i < |wa| && 0 <= j < |wb| ==> wa[i] != wb[j]
  {
    var wa := Window(xs, limit, offset);
    var wb := Window(xs, limit, offset + limit);
    forall i, j | 0 <= i < |wa| && 0 <= j < |wb| ensures wa[i] != wb[j] {
      assert wa[i] == xs[WindowStart(|xs|, offset) + i];
      assert wb[j] == xs[WindowStart(|xs|, offset + limit) + j];
    }
  }

  /** With no LIMIT and no OFFSET every matching row is listed, each once. */
  lemma UnboundedPageListsAll(t: Table, limit: int, offset: int, f: Filters)
    requires limit < 0 && offset <= 0
    ensures var r := GetMessages(t, limit, offset, f);
            && |r.data| == r.total
            && forall k :: k in FilteredIds(t, f) ==> exists i :: 0 <= i < |r.data| && r.data[i].messageId == k
  {
    var ids := Listing(t, f);
    PageIsWindow(t, limit, offset, f);
    WindowWhole(ids, limit, offset);
    MessagesOfCovers(t, ids, FilteredIds(t, f));
  }

  lemma WindowWhole<T>(xs: seq<T>, limit: int, offset: int)
    requires limit < 0 && offset <= 0
    ensures Window(xs, limit, offset) == xs
  {
  }

  lemma MessagesOfCovers(t: Table, ids: seq<string>, ks: set<string>)
    requires forall i :: 0 <= i < |ids| ==> ids[i] in t
    requires forall k :: k in ks ==> k in ids
    ensures forall k :: k in ks ==> exists i :: 0 <= i < |MessagesOf(t, ids)| && MessagesOf(t, ids)[i].messageId == k
  {
    var data := MessagesOf(t, ids);
    forall k | k in ks ensures exists i :: 0 <= i < |data| && data[i].messageId == k {
      var i :| 0 <= i < |ids| && ids[i] == k;
      assert data[i].messageId == k;
    }
  }


  // ---------------------------------------------------------------------------
  // get_stats

  /** On a non-empty table the first timestamp is never after the last. */
  lemma FirstNotAfterLast(t: Table)
    requires t != map[]
    ensures var st := GetStats(t);
            st.firstMessageTs.Some? && st.lastMessageTs.Some?
            && StrLessEq(st.firstMessageTs.value, st.lastMessageTs.value)
  {
  }

  /** The busiest sender heads the list. */
  lemma BusiestSenderFirst(t: Table, s: string)
    requires s in Senders(t)
    ensures var top := GetStats(t).messagesPerSender;
            |top| > 0 && SentBy(t, s) <= top[0].count
  {
    var top := GetStats(t).messagesPerSender;
    assert |top| > 0;
    if s in Froms(top) {
      var e :| e in top && e.from == s;
      var i :| 0 <= i < |top| && top[i] == e;
    }
  }
}

/** Properties of the handlers that relate several calls, or name an input. */
module ServiceFacts {
  import opened Wrappers
  import opened Models
  import opened ModelsFacts
  import opened Storage
  import opened Service

  // ---------------------------------------------------------------------------
  // Signature

  /** The sender's own digest, hex-encoded, is accepted (a SHA-256 digest has 32 bytes). */
  lemma OwnDigestAccepted(secret: string, body: seq<byte>, mac: (string, seq<byte>) -> seq<byte>)
    requires |mac(secret, body)| == 32
    ensures VerifySignature(secret, body, Some(Hex(mac(secret, body))), mac)
  {
  }

  /** Any other header is refused, and so is a missing or empty one. */
  lemma OtherSignaturesRefused(secret: string, body: seq<byte>, signature: string,
                               mac: (string, seq<byte>) -> seq<byte>)
    requires signature != Hex(mac(secret, body))
    ensures !VerifySignature(secret, body, Some(signature), mac)
    ensures !VerifySignature(secret, body, Some(""), mac) && !VerifySignature(secret, body, None, mac)
  {
  }

  /** Where the source does not raise, it decides exactly as the corrected check does. */
  lemma SignatureChecksAgree(secret: string, body: seq<byte>, signature: Option<string>,
                             mac: (string, seq<byte>) -> seq<byte>)
    requires VerifySignatureAsWritten(secret, body, signature, mac).Some?
    ensures VerifySignatureAsWritten(secret, body, signature, mac).value == VerifySignature(secret, body, signature, mac)
  {
  }

  /**
   * A non-ASCII `X-Signature` makes the source raise instead of answering 401: no
   * outcome is counted. The corrected flow refuses it as `invalid_signature`.
   */
  lemma NonAsciiSignatureRaises(t: Table, secret: string, body: seq<byte>,
                                mac: (string, seq<byte>) -> seq<byte>, e: Envelope, c: string, fault: bool)
    ensures ProcessAsWritten(t, secret, body, Some("é"), mac, e, c, fault).None?
    ensures Process(t, secret, body, Some("é"), mac, e, c, fault) == (InvalidSignature, t)
  {
    assert !IsAscii("é") by {
      assert "é"[0] as int == 0xE9;
    }
  }

  /**
   * When `from`, `to` and `ts` are ASCII without a final newline, wherever the
   * source answers at all, it answers as the corrected flow does.
   */
  lemma FlowsAgree(t: Table, secret: string, body: seq<byte>, signature: Option<string>,
                   mac: (string, seq<byte>) -> seq<byte>, e: Envelope, c: string, fault: bool)
    requires e.Object? ==> Plain(e.from) && Plain(e.to) && Plain(e.ts)
    requires ProcessAsWritten(t, secret, body, signature, mac, e, c, fault).Some?
    ensures ProcessAsWritten(t, secret, body, signature, mac, e, c, fault).value
            == Process(t, secret, body, signature, mac, e, c, fault)
  {
    RulesAgreeOnPlainFields(e);
  }

  /**
   * A correctly signed delivery whose `from` is "+123\n" is stored and answered
   * 200 as written; the corrected flow refuses it as a validation error.
   */
  lemma TrailingNewlineDeliveryStored(t: Table, secret: string, body: seq<byte>,
                                      mac: (string, seq<byte>) -> seq<byte>, c: string)
    requires |mac(secret, body)| == 32
    requires "msg-001" !in t
    ensures var e := Sample("+123\n", GoodTs, Missing);
            var sig := Some(Hex(mac(secret, body)));
            var p := Payload("msg-001", "+123\n", "+9876543210", GoodTs, None);
            && ProcessAsWritten(t, secret, body, sig, mac, e, c, false)
               == Some((Succeeded, t["msg-001" := RecordOf(p, c)]))
            && Process(t, secret, body, sig, mac, e, c, false) == (ValidationError([Violation(From, BadFormat)]), t)
  {
    var e := Sample("+123\n", GoodTs, Missing);
    var sig := Some(Hex(mac(secret, body)));
    HexIsAscii(mac(secret, body));
    assert VerifySignatureAsWritten(secret, body, sig, mac) == Some(true);
    assert VerifySignature(secret, body, sig, mac);
    TrailingNewlineNumberValidates();
    TrailingNewlineStrictlyRefused();
  }

  // ---------------------------------------------------------------------------
  // Webhook flow

  /**
   * The signature is checked before anything else: with a bad one, neither the
   * body's content nor the store's behaviour changes the outcome, and nothing is stored.
   */
  lemma SignatureGatesEverything(t: Table, secret: string, body: seq<byte>, signature: Option<string>,
                                 mac: (string, seq<byte>) -> seq<byte>,
                                 e1: Envelope, c1: string, fault1: bool,
                                 e2: Envelope, c2: string, fault2: bool)
    requires !VerifySignature(secret, body, signature, mac)
    ensures Process(t, secret, body, signature, mac, e1, c1, fault1)
            == Process(t, secret, body, signature, mac, e2, c2, fault2)
            == (InvalidSignature, t)
  {
  }

  /** A redelivery of a stored message is a duplicate: same 200 answer, nothing stored twice. */
  lemma RedeliveryIsDuplicate(t: Table, secret: string, body: seq<byte>, signature: Option<string>,
                              mac: (string, seq<byte>) -> seq<byte>, e: Envelope, c1: string, c2: string)
    requires Process(t, secret, body, signature, mac, e, c1, false).0 == Succeeded
    ensures var t1 := Process(t, secret, body, signature, mac, e, c1, false).1;
            && Process(t1, secret, body, signature, mac, e, c2, false) == (Duplicate, t1)
            && ResponseFor(Duplicate) == ResponseFor(Succeeded)
  {
  }

  /** Only a new, valid, correctly signed message that the store accepts changes the table. */
  lemma OnlySuccessStores(t: Table, secret: string, body: seq<byte>, signature: Option<string>,
                          mac: (string, seq<byte>) -> seq<byte>, e: Envelope, c: string, fault: bool)
    ensures var (o, t1) := Process(t, secret, body, signature, mac, e, c, fault);
            (t1 != t <==> o == Succeeded) && (o == Succeeded ==> |t1| == |t| + 1)
  {
  }

  /** Distinct outcomes are counted under distinct labels. */
  lemma LabelsDistinguishOutcomes(a: Outcome, b: Outcome)
    requires Label(a) == Label(b)
    ensures a.InvalidSignature? == b.InvalidSignature? && a.ValidationError? == b.ValidationError?
    ensures a.DbError? == b.DbError? && a.Duplicate? == b.Duplicate? && a.Succeeded? == b.Succeeded?
  {
  }

  // ---------------------------------------------------------------------------
  // GET /messages bounds

  lemma PagingExamples()
    ensures CheckPaging(None, None) == Success((50, 0))
    ensures CheckPaging(Some(1), Some(0)).Success? && CheckPaging(Some(100), Some(7)).Success?
    ensures CheckPaging(Some(0), None) == Failure([LimitBelowOne])
    ensures CheckPaging(Some(101), None) == Failure([LimitAboveHundred])
    ensures CheckPaging(None, Some(-1)) == Failure([OffsetNegative])
    ensures CheckPaging(Some(0), Some(-1)) == Failure([LimitBelowOne, OffsetNegative])
  {
    var none: seq<QueryProblem> := [];
    assert [LimitBelowOne] + none + none == [LimitBelowOne];
    assert none + [LimitAboveHundred] + none == [LimitAboveHundred];
    assert none + none + [OffsetNegative] == [OffsetNegative];
    assert [LimitBelowOne] + none + [OffsetNegative] == [LimitBelowOne, OffsetNegative];
  }

  /** An accepted request never reaches SQLite's meaning of a negative LIMIT or OFFSET. */
  lemma AcceptedPagingIsPlainSlice(limit: Option<int>, offset: Option<int>)
    requires CheckPaging(limit, offset).Success?
    ensures var (l, o) := CheckPaging(limit, offset).value; l >= 1 && o >= 0
  {
  }

  /** An offset of 2^63 passes the bounds but fails inside the store; 2^63 - 1 still gets a page. */
  lemma OffsetOverflowExamples(t: Table, f: Filters)
    ensures MessagesEndpoint(t, None, Some(0x8000_0000_0000_0000), f) == Failure(OffsetOverflow)
    ensures MessagesEndpoint(t, None, Some(MaxSqliteInteger), f).Success?
    ensures MessagesEndpoint(t, None, Some(MaxSqliteInteger), f).value.offset == MaxSqliteInteger
  {
  }

  // ---------------------------------------------------------------------------
  // Readiness

  /** The secret is checked first: without it the database's state is not consulted. */
  lemma SecretCheckedFirst(a: bool, b: bool)
    ensures HealthReady("", a) == HealthReady("", b) == NotReady("missing webhook secret")
    ensures ReadinessCode(HealthReady("", a)) == 503
  {
  }

  /** With the secret set, readiness follows the database. */
  lemma ReadinessFollowsDatabase(secret: string, dbHealthy: bool)
    requires secret != ""
    ensures HealthReady(secret, dbHealthy) == if dbHealthy then Ready else NotReady("database unavailable")
    ensures ReadinessCode(HealthReady(secret, dbHealthy)) == (if dbHealthy then 200 else 503)
  {
  }
}

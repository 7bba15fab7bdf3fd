/**
 * The HTTP handlers of app/main.py that decide something: the HMAC signature
 * check, the `/webhook` outcome flow over the store and the metrics registry,
 * the paging bounds of `/messages`, and the readiness probe.
 *
 * HMAC-SHA256 itself is a parameter `mac`: `mac(secret, body)` is the digest of
 * `body` under the UTF-8 encoding of `secret`. Decoding the body as JSON is not
 * modelled either: the handler receives the body's parse as an `Envelope`.
 */
module Service {
  import opened Wrappers
  import opened Models
  import opened Storage
  import Metrics

  newtype byte = b: int | 0 <= b < 256

  // ---------------------------------------------------------------------------
  // verify_signature

  function HexDigit(n: int): char
    requires 0 <= n < 16
  {
    if n < 10 then ('0' as int + n) as char else ('a' as int + n - 10) as char
  }

  predicate IsHexDigit(c: char) {
    '0' <= c <= '9' || 'a' <= c <= 'f'
  }

  function HexValue(c: char): int
    requires IsHexDigit(c)
  {
    if c <= '9' then c as int - '0' as int else c as int - 'a' as int + 10
  }

  /** `bytes.hex()` / `hexdigest()`: two lowercase hex digits per byte, high nibble first. */
  function Hex(bytes: seq<byte>): (s: string)
    ensures |s| == 2 * |bytes|
    ensures forall i :: 0 <= i < |s| ==> IsHexDigit(s[i])
  {
    if bytes == [] then ""
    else [HexDigit(bytes[0] as int / 16), HexDigit(bytes[0] as int % 16)] + Hex(bytes[1..])
  }

  function UnHex(s: string): seq<byte>
    requires |s| % 2 == 0 && forall i :: 0 <= i < |s| ==> IsHexDigit(s[i])
    decreases |s|
  {
    if s == "" then []
    else [(16 * HexValue(s[0]) + HexValue(s[1])) as byte] + UnHex(s[2..])
  }

  /** Reading a hex digest back gives the digest: distinct digests have distinct hex forms. */
  lemma {:induction false} UnHexHex(bytes: seq<byte>)
    ensures UnHex(Hex(bytes)) == bytes
    decreases |bytes|
  {
    if bytes != [] {
      var s := Hex(bytes);
      assert s[2..] == Hex(bytes[1..]);
      UnHexHex(bytes[1..]);
      assert bytes == [bytes[0]] + bytes[1..];
    }
  }

  /** Every hex digest is ASCII, so comparing it never raises. */
  lemma HexIsAscii(bytes: seq<byte>)
    ensures IsAscii(Hex(bytes))
  {
  }

  /** A header that Python treats as false: absent or empty. */
  predicate Blank(signature: Option<string>) {
    signature.None? || signature.value == ""
  }

  /**
   * verify_signature, treating a signature that is not ASCII as a mismatch.
   * It is true exactly when the header equals the lowercase hex digest.
   */
  function VerifySignature(secret: string, body: seq<byte>, signature: Option<string>,
                           mac: (string, seq<byte>) -> seq<byte>): (ok: bool)
    ensures ok <==> signature.Some? && signature.value == Hex(mac(secret, body)) && !Blank(signature)
  {
    if Blank(signature) then false
    else if !IsAscii(signature.value) then false
    else
      HexIsAscii(mac(secret, body));
      signature.value == Hex(mac(secret, body))
  }

  /**
   * verify_signature as written: `hmac.compare_digest` on two `str` values
   * raises TypeError when either holds a non-ASCII character, which is `None` here.
   */
  function VerifySignatureAsWritten(secret: string, body: seq<byte>, signature: Option<string>,
                                    mac: (string, seq<byte>) -> seq<byte>): (r: Option<bool>)
    ensures r.None? <==> !Blank(signature) && !IsAscii(signature.value)
  {
    if Blank(signature) then Some(false)
    else if !IsAscii(signature.value) then None
    else Some(signature.value == Hex(mac(secret, body)))
  }

  // ---------------------------------------------------------------------------
  // webhook

  /** The five results the handler counts. */
  datatype Outcome = InvalidSignature | ValidationError(violations: seq<Violation>) | DbError | Duplicate | Succeeded

  /** The `result` label under which the outcome is counted. */
  function Label(o: Outcome): (l: string)
    ensures l in {"invalid_signature", "validation_error", "db_error", "duplicate", "success"}
  {
    match o
    case InvalidSignature => "invalid_signature"
    case ValidationError(_) => "validation_error"
    case DbError => "db_error"
    case Duplicate => "duplicate"
    case Succeeded => "success"
  }

  datatype Body = Detail(detail: string) | Status(status: string)

  /**
   * What the handler hands back. On a validation failure it re-raises the
   * validation error; the framework turns that into the HTTP response.
   */
  datatype Response = Reply(code: int, body: Body) | Reraised(violations: seq<Violation>)

  function ResponseFor(o: Outcome): (r: Response)
    ensures r.Reply? <==> !o.ValidationError?
    ensures r.Reply? ==> (r.code == 200 <==> o.Duplicate? || o.Succeeded?)
    ensures r.Reply? ==> (r.body.Detail? <==> r.code != 200)
    ensures r.Reraised? ==> r.violations == o.violations
    ensures o.InvalidSignature? ==> r == Reply(401, Detail("invalid signature"))
    ensures o.DbError? ==> r == Reply(500, Detail("database error"))
    ensures o.Duplicate? || o.Succeeded? ==> r == Reply(200, Status("ok"))
  {
    match o
    case InvalidSignature => Reply(401, Detail("invalid signature"))
    case ValidationError(vs) => Reraised(vs)
    case DbError => Reply(500, Detail("database error"))
    case Duplicate => Reply(200, Status("ok"))
    case Succeeded => Reply(200, Status("ok"))
  }

  /**
   * One delivery, decided: check the signature first, then validate the parsed
   * body, then insert. `storeFault` says whether the storage engine raises, and
   * `rules` which pattern matchers validation applies.
   */
  function Process(t: Table, secret: string, body: seq<byte>, signature: Option<string>,
                   mac: (string, seq<byte>) -> seq<byte>, envelope: Envelope,
                   createdAt: string, storeFault: bool, rules: Rules := Strict): (r: (Outcome, Table))
    ensures r.0 == InvalidSignature <==> !VerifySignature(secret, body, signature, mac)
    ensures r.0.ValidationError? <==>
              VerifySignature(secret, body, signature, mac) && Validate(envelope, rules).Failure?
    ensures r.0.ValidationError? ==> r.0.violations == Validate(envelope, rules).error
    ensures r.0 == DbError <==>
              VerifySignature(secret, body, signature, mac) && Validate(envelope, rules).Success? && storeFault
    ensures r.1 != t ==> r.0 == Succeeded
    ensures r.0 == Succeeded ==>
              Validate(envelope, rules).Success?
              && var p := Validate(envelope, rules).value;
              p.messageId !in t && r.1 == t[p.messageId := RecordOf(p, createdAt)]
    ensures r.0 == Duplicate ==> Validate(envelope, rules).Success? && Validate(envelope, rules).value.messageId in t
  {
    if !VerifySignature(secret, body, signature, mac) then (InvalidSignature, t)
    else match Validate(envelope, rules)
      case Failure(vs) => (ValidationError(vs), t)
      case Success(p) =>
        var (res, t') := InsertOrIgnore(t, p, createdAt, storeFault);
        if !res.success then (DbError, t')
        else if res.isDuplicate then (Duplicate, t')
        else (Succeeded, t')
  }

  /**
   * The flow as written: the signature comparison that raises on a non-ASCII
   * header, and validation by the regular expressions as `re.match` reads them.
   * `None` when the comparison raises, in which case no outcome is counted and
   * nothing is stored.
   */
  function ProcessAsWritten(t: Table, secret: string, body: seq<byte>, signature: Option<string>,
                            mac: (string, seq<byte>) -> seq<byte>, envelope: Envelope,
                            createdAt: string, storeFault: bool): (r: Option<(Outcome, Table)>)
    ensures r.None? <==> VerifySignatureAsWritten(secret, body, signature, mac).None?
    ensures r.None? ==> !Blank(signature) && !IsAscii(signature.value)
    ensures r.Some? ==> (r.value.0.ValidationError? <==>
                         VerifySignature(secret, body, signature, mac) && Validate(envelope, AsWritten).Failure?)
  {
    if VerifySignatureAsWritten(secret, body, signature, mac).None? then None
    else Some(Process(t, secret, body, signature, mac, envelope, createdAt, storeFault, AsWritten))
  }

  /**
   * The `/webhook` handler: decides the outcome, stores the message on success,
   * counts exactly one outcome and answers.
   */
  method Webhook(metrics: Metrics.Metrics, db: Database, secret: string, body: seq<byte>,
                 signature: Option<string>, mac: (string, seq<byte>) -> seq<byte>,
                 envelope: Envelope, createdAt: string, storeFault: bool)
    returns (response: Response)
    requires metrics.Valid()
    modifies metrics, db
    ensures metrics.Valid()
    ensures var (o, t) := Process(old(db.rows), secret, body, signature, mac, envelope, createdAt, storeFault);
            && db.rows == t
            && response == ResponseFor(o)
            && metrics.webhookRequests == Metrics.Bump(old(metrics.webhookRequests), Label(o))
            && metrics.httpRequests == old(metrics.httpRequests)
  {
    if !VerifySignature(secret, body, signature, mac) {
      metrics.IncrementWebhookRequest("invalid_signature");
      return ResponseFor(InvalidSignature);
    }
    var validated := Validate(envelope);
    if validated.Failure? {
      metrics.IncrementWebhookRequest("validation_error");
      return Reraised(validated.error);
    }
    var p := validated.value;
    var success, isDuplicate := db.InsertMessage(p, createdAt, storeFault);
    if !success {
      metrics.IncrementWebhookRequest("db_error");
      return ResponseFor(DbError);
    }
    var result := if isDuplicate then "duplicate" else "success";
    metrics.IncrementWebhookRequest(result);
    response := Reply(200, Status("ok"));
  }

  // ---------------------------------------------------------------------------
  // GET /messages

  /** Why the query parameters were refused: `limit` outside 1..100, or a negative `offset`. */
  datatype QueryProblem = LimitBelowOne | LimitAboveHundred | OffsetNegative

  const DefaultLimit: int := 50
  const DefaultOffset: int := 0

  /** The `Query(ge=1, le=100)` and `Query(ge=0)` bounds, with their defaults; every failed bound is reported. */
  function CheckPaging(limit: Option<int>, offset: Option<int>): (r: Result<(int, int), seq<QueryProblem>>)
    ensures r.Success? <==> 1 <= limit.GetOr(DefaultLimit) <= 100 && 0 <= offset.GetOr(DefaultOffset)
    ensures r.Success? ==> r.value == (limit.GetOr(DefaultLimit), offset.GetOr(DefaultOffset))
    ensures r.Failure? ==>
              && (LimitBelowOne in r.error <==> limit.GetOr(DefaultLimit) < 1)
              && (LimitAboveHundred in r.error <==> limit.GetOr(DefaultLimit) > 100)
              && (OffsetNegative in r.error <==> offset.GetOr(DefaultOffset) < 0)
  {
    var l := limit.GetOr(DefaultLimit);
    var o := offset.GetOr(DefaultOffset);
    var problems := (if l < 1 then [LimitBelowOne] else [])
      + (if l > 100 then [LimitAboveHundred] else [])
      + (if o < 0 then [OffsetNegative] else []);
    if problems == [] then Success((l, o)) else Failure(problems)
  }

  datatype MessagesResponse = MessagesResponse(data: seq<Message>, total: nat, limit: int, offset: int)

  /** The largest value sqlite3 binds as an INTEGER parameter: 2^63 - 1. */
  const MaxSqliteInteger: int := 0x7FFF_FFFF_FFFF_FFFF

  /**
   * Why `/messages` gives no page: the bounds were refused (a 422), or binding
   * OFFSET raised OverflowError inside `get_messages`, which nothing catches (a 500).
   */
  datatype MessagesFailure = BadPaging(problems: seq<QueryProblem>) | OffsetOverflow

  /**
   * The `/messages` handler: checks the bounds, then queries the store and echoes
   * the paging it used. An offset above 2^63 - 1 passes `Query(ge=0)` but cannot
   * be bound as an SQLite parameter.
   */
  ghost function MessagesEndpoint(t: Table, limit: Option<int>, offset: Option<int>, f: Filters)
    : (r: Result<MessagesResponse, MessagesFailure>)
    ensures r.Failure? && r.error.BadPaging? <==> CheckPaging(limit, offset).Failure?
    ensures r.Failure? && r.error.BadPaging? ==> r.error.problems == CheckPaging(limit, offset).error
    ensures r == Failure(OffsetOverflow) <==>
              CheckPaging(limit, offset).Success? && CheckPaging(limit, offset).value.1 > MaxSqliteInteger
    ensures r.Success? ==>
              && (r.value.limit, r.value.offset) == CheckPaging(limit, offset).value
              && 1 <= r.value.limit <= 100 && 0 <= r.value.offset <= MaxSqliteInteger
              && r.value.data == GetMessages(t, r.value.limit, r.value.offset, f).data
              && |r.value.data| <= r.value.limit
              && r.value.total == |FilteredIds(t, f)|
  {
    match CheckPaging(limit, offset)
    case Failure(problems) => Failure(BadPaging(problems))
    case Success((l, o)) =>
      if o > MaxSqliteInteger then Failure(OffsetOverflow)
      else
        var page := GetMessages(t, l, o, f);
        Success(MessagesResponse(page.data, page.total, l, o))
  }

  // ---------------------------------------------------------------------------
  // GET /health/ready

  datatype Readiness = Ready | NotReady(reason: string)

  function ReadinessCode(r: Readiness): int {
    if r.Ready? then 200 else 503
  }

  /** The readiness probe: the secret is checked before the database. */
  function HealthReady(secret: string, dbHealthy: bool): (r: Readiness)
    ensures r.Ready? <==> secret != "" && dbHealthy
  {
    if secret == "" then NotReady("missing webhook secret")
    else if !dbHealthy then NotReady("database unavailable")
    else Ready
  }
}

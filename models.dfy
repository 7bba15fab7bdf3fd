/**
 * The webhook payload and its field rules (app/models.py, WebhookPayload).
 *
 * A request body has already been decoded from JSON into an `Envelope`: either
 * something that is not a JSON object, or an object whose five fields are each
 * absent, null, a string, or some other JSON value. `Validate` applies the field
 * constraints and, like Pydantic, reports every violated field at once.
 *
 * The regular expressions of the source are stated here as character-class
 * predicates. Python's `re.match` with `$` also accepts one trailing "\n", and
 * its `\d` accepts any Unicode decimal digit; the `AsWritten` matchers capture
 * both. `Validate` takes either set of matchers: the strict ASCII full-string
 * ones (`IsE164`, `IsIso8601Z`) by default, which the corrected flow uses, or
 * the as-written ones, which the flow as written uses.
 */
module Models {
  import opened Wrappers

  const MaxTextLength: nat := 4096

  // ---------------------------------------------------------------------------
  // Character classes

  predicate IsAsciiDigit(c: char) {
    '0' <= c <= '9'
  }

  /**
   * Characters Python's `\d` accepts: ASCII digits and Unicode category Nd. Only
   * the ASCII block and five further Nd blocks are listed (Arabic-Indic, Extended
   * Arabic-Indic, Devanagari, Bengali, fullwidth); Python accepts every Nd block.
   */
  predicate IsPythonDecimal(c: char) {
    IsAsciiDigit(c)
    || (0x0660 <= c as int <= 0x0669)
    || (0x06F0 <= c as int <= 0x06F9)
    || (0x0966 <= c as int <= 0x096F)
    || (0x09E6 <= c as int <= 0x09EF)
    || (0xFF10 <= c as int <= 0xFF19)
  }

  /** `v[lo..hi]` consists of characters of the class `digit`. */
  predicate DigitsIn(v: string, lo: nat, hi: nat, digit: char -> bool)
    requires lo <= hi <= |v|
  {
    forall i :: lo <= i < hi ==> digit(v[i])
  }

  // ---------------------------------------------------------------------------
  // E.164-like numbers: `+` then one or more digits

  /** `v` is `+` followed by one or more characters of `digit`, and nothing else. */
  predicate E164Shape(v: string, digit: char -> bool) {
    |v| >= 2 && v[0] == '+' && DigitsIn(v, 1, |v|, digit)
  }

  /**
   * The strict rule for `from` and `to`: `^\+[0-9]+$` matched against the whole
   * string. Whatever it accepts is ASCII and is accepted by the pattern as written.
   */
  predicate IsE164(v: string): (ok: bool)
    ensures ok ==> |v| >= 2 && v[0] == '+' && IsAscii(v) && E164AsWritten(v)
  {
    E164Shape(v, IsAsciiDigit)
  }

  /** `v` without one final "\n", the part `$` lets `re.match` stop at. */
  function Chomp(v: string): string {
    if |v| > 0 && v[|v| - 1] == '\n' then v[..|v| - 1] else v
  }

  /**
   * Python's `re.match(r'^\+\d+$', v)` (app/models.py:22): `\d` is any Unicode
   * decimal digit, and `$` also matches before a final "\n", so the rule is the
   * full match of what is left after removing one final newline.
   */
  predicate E164AsWritten(v: string): (ok: bool)
    ensures ok <==> E164Shape(Chomp(v), IsPythonDecimal)
  {
    E164Shape(v, IsPythonDecimal)
    || (|v| > 0 && v[|v| - 1] == '\n' && E164Shape(v[..|v| - 1], IsPythonDecimal))
  }

  // ---------------------------------------------------------------------------
  // Timestamps: DDDD-DD-DDTDD:DD:DD, optional `.` and digits, then `Z`

  /** The fraction between the seconds and the `Z`: empty, or `.` followed by one or more digits. */
  predicate FractionShape(f: string, digit: char -> bool) {
    f == [] || (|f| >= 2 && f[0] == '.' && DigitsIn(f, 1, |f|, digit))
  }

  predicate Iso8601Shape(v: string, digit: char -> bool) {
    && |v| >= 20
    && DigitsIn(v, 0, 4, digit) && v[4] == '-'
    && DigitsIn(v, 5, 7, digit) && v[7] == '-'
    && DigitsIn(v, 8, 10, digit) && v[10] == 'T'
    && DigitsIn(v, 11, 13, digit) && v[13] == ':'
    && DigitsIn(v, 14, 16, digit) && v[16] == ':'
    && DigitsIn(v, 17, 19, digit)
    && FractionShape(v[19..|v| - 1], digit)
    && v[|v| - 1] == 'Z'
  }

  /**
   * The strict rule for `ts`: the ISO-8601 UTC pattern with ASCII digits, matched
   * against the whole string. Whatever it accepts is ASCII, ends in `Z` and is
   * accepted by the pattern as written.
   */
  predicate IsIso8601Z(v: string): (ok: bool)
    ensures ok ==> |v| >= 20 && v[10] == 'T' && v[|v| - 1] == 'Z' && IsAscii(v) && Iso8601AsWritten(v)
  {
    Iso8601Shape(v, IsAsciiDigit)
  }

  /**
   * Python's `re.match` with the timestamp pattern (app/models.py:30), with the
   * same two quirks as `E164AsWritten`: the full match of `Chomp(v)`.
   */
  predicate Iso8601AsWritten(v: string): (ok: bool)
    ensures ok <==> Iso8601Shape(Chomp(v), IsPythonDecimal)
  {
    Iso8601Shape(v, IsPythonDecimal)
    || (|v| > 0 && v[|v| - 1] == '\n' && Iso8601Shape(v[..|v| - 1], IsPythonDecimal))
  }

  predicate IsAscii(v: string) {
    forall i :: 0 <= i < |v| ==> v[i] as int < 128
  }

  // ---------------------------------------------------------------------------
  // The payload

  /** One JSON member of the request object, after JSON decoding. */
  datatype Json = Missing | Null | Str(s: string) | NonString

  /** The decoded request body. `NotAnObject` stands for malformed JSON and for any top-level value that is not an object. */
  datatype Envelope =
    | NotAnObject
    | Object(messageId: Json, from: Json, to: Json, ts: Json, text: Json)

  /** A validated payload: the field values exactly as received. */
  datatype Payload = Payload(messageId: string, from: string, to: string, ts: string, text: Option<string>)

  datatype FieldName = Body | MessageId | From | To | Ts | Text

  datatype Problem = InvalidJson | MissingField | NotAString | TooShort | BadFormat | TooLong

  datatype Violation = Violation(field: FieldName, problem: Problem)

  /** What is wrong with a required string field, if anything. */
  function RequiredProblem(v: Json, ok: string -> bool, bad: Problem): Option<Problem> {
    match v
    case Missing => Some(MissingField)
    case Null => Some(NotAString)
    case NonString => Some(NotAString)
    case Str(s) => if ok(s) then None else Some(bad)
  }

  /** What is wrong with the optional `text` field, if anything: absent and null both mean "no text". */
  function TextProblem(v: Json): Option<Problem> {
    match v
    case Missing => None
    case Null => None
    case NonString => Some(NotAString)
    case Str(s) => if |s| <= MaxTextLength then None else Some(TooLong)
  }

  predicate NonEmpty(s: string) {
    |s| >= 1
  }

  /**
   * The pattern matchers validation applies to the numbers and the timestamp:
   * the strict ASCII full-string rules, or the source's regular expressions as
   * `re.match` reads them.
   */
  datatype Rules = Rules(number: string -> bool, timestamp: string -> bool)

  const Strict: Rules := Rules(IsE164, IsIso8601Z)
  const AsWritten: Rules := Rules(E164AsWritten, Iso8601AsWritten)

  /** The problem with one field of an object envelope. */
  function ProblemOf(e: Envelope, n: FieldName, rules: Rules := Strict): Option<Problem>
    requires e.Object?
  {
    match n
    case Body => None
    case MessageId => RequiredProblem(e.messageId, NonEmpty, TooShort)
    case From => RequiredProblem(e.from, rules.number, BadFormat)
    case To => RequiredProblem(e.to, rules.number, BadFormat)
    case Ts => RequiredProblem(e.ts, rules.timestamp, BadFormat)
    case Text => TextProblem(e.text)
  }

  /** The fields a validator must complain about. */
  function InvalidFields(e: Envelope, rules: Rules := Strict): set<FieldName> {
    if e.NotAnObject? then {Body}
    else set n: FieldName | n in {MessageId, From, To, Ts, Text} && ProblemOf(e, n, rules).Some?
  }

  function Report(n: FieldName, p: Option<Problem>): seq<Violation> {
    if p.Some? then [Violation(n, p.value)] else []
  }

  function Fields(vs: seq<Violation>): set<FieldName> {
    set v | v in vs :: v.field
  }

  /** The violations of an object envelope, one per invalid field, in declaration order. */
  function ObjectViolations(e: Envelope, rules: Rules := Strict): seq<Violation>
    requires e.Object?
  {
    Report(MessageId, ProblemOf(e, MessageId, rules)) + Report(From, ProblemOf(e, From, rules))
    + Report(To, ProblemOf(e, To, rules)) + Report(Ts, ProblemOf(e, Ts, rules))
    + Report(Text, ProblemOf(e, Text, rules))
  }

  /**
   * WebhookPayload.model_validate_json. Success exactly when no field is invalid,
   * with every value taken verbatim (no normalisation); otherwise one violation
   * per invalid field, naming exactly the invalid fields. `rules` picks the
   * pattern matchers; the strict ones by default.
   */
  function Validate(e: Envelope, rules: Rules := Strict): (r: Result<Payload, seq<Violation>>)
    ensures r.Success? <==> InvalidFields(e, rules) == {}
    ensures r.Success? ==> e.Object? && e.messageId == Str(r.value.messageId) && e.from == Str(r.value.from)
                           && e.to == Str(r.value.to) && e.ts == Str(r.value.ts)
                           && r.value.text == (if e.text.Str? then Some(e.text.s) else None)
    ensures r.Failure? ==> Fields(r.error) == InvalidFields(e, rules)
    ensures r.Failure? ==> forall v :: v in r.error && v.field != Body ==> e.Object? && ProblemOf(e, v.field, rules) == Some(v.problem)
  {
    if e.NotAnObject? then Failure([Violation(Body, InvalidJson)])
    else
      var vs := ObjectViolations(e, rules);
      assert Fields(vs) == InvalidFields(e, rules) by {
        forall n | n in InvalidFields(e, rules) ensures n in Fields(vs) {
          assert Violation(n, ProblemOf(e, n, rules).value) in vs;
        }
      }
      if vs == [] then
        Success(Payload(e.messageId.s, e.from.s, e.to.s, e.ts.s, if e.text.Str? then Some(e.text.s) else None))
      else
        assert vs[0].field in Fields(vs);
        Failure(vs)
  }
}

/** Properties of the field rules, and where the source's regular expressions depart from them. */
module ModelsFacts {
  import opened Wrappers
  import opened Models

  const GoodTs: string := "2024-01-15T10:30:00Z"

  function Sample(from: string, ts: string, text: Json): Envelope {
    Object(Str("msg-001"), Str(from), Str("+9876543210"), Str(ts), text)
  }

  lemma E164Examples()
    ensures IsE164("+1234567890")
    ensures !IsE164("1234567890")
    ensures !IsE164("+")
    ensures !IsE164("+12a4")
  {
    assert !IsAsciiDigit("+12a4"[3]);
  }

  lemma TimestampExamples()
    ensures IsIso8601Z("2024-01-15T10:30:00Z")
    ensures IsIso8601Z("2024-01-15T10:30:00.000Z")
    ensures !IsIso8601Z("2024-01-15 10:30:00")
    ensures !IsIso8601Z("2024-01-15T10:30:00.Z")
    ensures !IsIso8601Z("2024-01-15T10:30:00")
  {
    GoodTsValid();
    FractionalTsValid();
    EmptyFractionRejected();
  }

  lemma FractionalTsValid()
    ensures IsIso8601Z("2024-01-15T10:30:00.000Z")
  {
    GoodTsValid();
    assert FractionShape(".000", IsAsciiDigit);
    WithFraction(GoodTs, ".000");
    assert GoodTs[..19] + ".000" + "Z" == "2024-01-15T10:30:00.000Z";
  }

  /** A fraction may be put between the seconds and the `Z` of a timestamp without one. */
  lemma WithFraction(v: string, f: string)
    requires IsIso8601Z(v) && |v| == 20 && FractionShape(f, IsAsciiDigit)
    ensures IsIso8601Z(v[..19] + f + "Z")
  {
    var w := v[..19] + f + "Z";
    assert forall i :: 0 <= i < 19 ==> w[i] == v[i];
    assert w[19..|w| - 1] == f;
  }

  lemma EmptyFractionRejected()
    ensures !IsIso8601Z("2024-01-15T10:30:00.Z")
  {
    assert "2024-01-15T10:30:00.Z"[19..20] == ".";
  }

  lemma GoodTsValid()
    ensures IsIso8601Z(GoodTs)
  {
  }

  lemma SampleNumbersValid()
    ensures IsE164("+1234567890") && IsE164("+9876543210")
  {
  }

  /** `Validate` on an object: its violations in field order, or the verbatim payload when there are none. */
  lemma ValidateObject(e: Envelope, rules: Rules)
    requires e.Object?
    ensures var vs := ObjectViolations(e, rules);
            Validate(e, rules) == if vs == [] then Success(Payload(e.messageId.s, e.from.s, e.to.s, e.ts.s,
                                                                   if e.text.Str? then Some(e.text.s) else None))
                                  else Failure(vs)
  {
  }

  /** How `Validate` treats a sample envelope: only `from`, `ts` and `text` vary. */
  lemma ValidateSample(from: string, ts: string, text: Json)
    ensures var e := Sample(from, ts, text);
            var vs := Report(From, RequiredProblem(Str(from), IsE164, BadFormat))
                      + Report(Ts, RequiredProblem(Str(ts), IsIso8601Z, BadFormat))
                      + Report(Text, TextProblem(text));
            Validate(e) == if vs == [] then Success(Payload("msg-001", from, "+9876543210", ts,
                                                            if text.Str? then Some(text.s) else None))
                           else Failure(vs)
  {
    var e := Sample(from, ts, text);
    SampleNumbersValid();
    assert ProblemOf(e, MessageId) == None && ProblemOf(e, To) == None;
    assert Report(MessageId, ProblemOf(e, MessageId)) == [] && Report(To, ProblemOf(e, To)) == [];
    assert ObjectViolations(e) == Report(From, ProblemOf(e, From)) + Report(Ts, ProblemOf(e, Ts))
                                  + Report(Text, ProblemOf(e, Text));
  }

  /** A well-formed payload is accepted verbatim, with or without `text`. */
  lemma ValidPayloadAccepted()
    ensures Validate(Sample("+1234567890", GoodTs, Str("Hello World")))
            == Success(Payload("msg-001", "+1234567890", "+9876543210", GoodTs, Some("Hello World")))
    ensures Validate(Sample("+1234567890", GoodTs, Missing)).Success?
    ensures Validate(Sample("+1234567890", GoodTs, Missing)).value.text == None
  {
    SampleNumbersValid();
    GoodTsValid();
    ValidateSample("+1234567890", GoodTs, Str("Hello World"));
    ValidateSample("+1234567890", GoodTs, Missing);
  }

  /** A sender without the leading `+` is reported against `from` alone. */
  lemma MissingPlusRejected()
    ensures Validate(Sample("1234567890", GoodTs, Missing)) == Failure([Violation(From, BadFormat)])
  {
    GoodTsValid();
    assert !IsE164("1234567890");
    ValidateSample("1234567890", GoodTs, Missing);
    assert Report(Ts, RequiredProblem(Str(GoodTs), IsIso8601Z, BadFormat)) == [];
    assert Report(From, RequiredProblem(Str("1234567890"), IsE164, BadFormat)) == [Violation(From, BadFormat)];
    assert Report(Text, TextProblem(Missing)) == [];
    var vs := Report(From, RequiredProblem(Str("1234567890"), IsE164, BadFormat))
              + Report(Ts, RequiredProblem(Str(GoodTs), IsIso8601Z, BadFormat))
              + Report(Text, TextProblem(Missing));
    assert vs == [Violation(From, BadFormat)];
    assert Validate(Sample("1234567890", GoodTs, Missing)) == Failure(vs);
  }

  /** A timestamp with a space instead of `T` is reported against `ts` alone. */
  lemma SpaceSeparatedTimestampRejected()
    ensures Validate(Sample("+1234567890", "2024-01-15 10:30:00", Missing)) == Failure([Violation(Ts, BadFormat)])
  {
    SampleNumbersValid();
    assert !IsIso8601Z("2024-01-15 10:30:00");
    ValidateSample("+1234567890", "2024-01-15 10:30:00", Missing);
    assert Report(From, RequiredProblem(Str("+1234567890"), IsE164, BadFormat)) == [];
    assert Report(Ts, RequiredProblem(Str("2024-01-15 10:30:00"), IsIso8601Z, BadFormat)) == [Violation(Ts, BadFormat)];
    assert Report(Text, TextProblem(Missing)) == [];
    var vs := Report(From, RequiredProblem(Str("+1234567890"), IsE164, BadFormat))
              + Report(Ts, RequiredProblem(Str("2024-01-15 10:30:00"), IsIso8601Z, BadFormat))
              + Report(Text, TextProblem(Missing));
    assert vs == [Violation(Ts, BadFormat)];
  }

  /** Text of 4096 characters passes; 4097 is one too many. */
  lemma TextLengthBoundary()
    ensures Validate(Sample("+1234567890", GoodTs, Str(seq(4096, _ => 'a')))).Success?
    ensures Validate(Sample("+1234567890", GoodTs, Str(seq(4097, _ => 'a')))) == Failure([Violation(Text, TooLong)])
  {
    SampleNumbersValid();
    GoodTsValid();
    ValidateSample("+1234567890", GoodTs, Str(seq(4096, _ => 'a')));
    ValidateSample("+1234567890", GoodTs, Str(seq(4097, _ => 'a')));
    assert Report(From, RequiredProblem(Str("+1234567890"), IsE164, BadFormat)) == [];
    assert Report(Ts, RequiredProblem(Str(GoodTs), IsIso8601Z, BadFormat)) == [];
    var long := seq(4097, _ => 'a');
    assert Report(Text, TextProblem(Str(long))) == [Violation(Text, TooLong)];
    var vs := Report(From, RequiredProblem(Str("+1234567890"), IsE164, BadFormat))
              + Report(Ts, RequiredProblem(Str(GoodTs), IsIso8601Z, BadFormat))
              + Report(Text, TextProblem(Str(long)));
    assert vs == [Violation(Text, TooLong)];
  }

  /** Every invalid field is reported, in declaration order. */
  lemma AllViolationsReported()
    ensures Validate(Object(Str(""), Missing, Str("+1"), Str(GoodTs), Null))
            == Failure([Violation(MessageId, TooShort), Violation(From, MissingField)])
  {
    var e := Object(Str(""), Missing, Str("+1"), Str(GoodTs), Null);
    GoodTsValid();
    assert IsE164("+1");
    EmptyIdAndMissingFrom(e);
    ValidateObject(e, Strict);
  }

  lemma EmptyIdAndMissingFrom(e: Envelope)
    requires e.Object? && e.messageId == Str("") && e.from == Missing && e.text == Null
    requires e.to.Str? && IsE164(e.to.s) && e.ts.Str? && IsIso8601Z(e.ts.s)
    ensures ObjectViolations(e) == [Violation(MessageId, TooShort), Violation(From, MissingField)]
  {
    assert Report(To, ProblemOf(e, To)) == [] && Report(Ts, ProblemOf(e, Ts)) == [];
    assert Report(Text, ProblemOf(e, Text)) == [];
  }

  // ---------------------------------------------------------------------------
  // The regular expressions as written

  lemma E164TrailingNewlineAccepted()
    ensures E164AsWritten("+123\n") && !IsE164("+123\n")
  {
    assert "+123\n"[..4] == "+123";
    assert !IsAsciiDigit("+123\n"[4]);
  }

  lemma E164UnicodeDigitAccepted()
    ensures E164AsWritten("+\U{0661}\U{0662}") && !IsE164("+\U{0661}\U{0662}")
  {
    assert !IsAsciiDigit("+\U{0661}\U{0662}"[1]);
  }

  lemma TimestampTrailingNewlineAccepted()
    ensures Iso8601AsWritten("2024-01-15T10:30:00Z\n") && !IsIso8601Z("2024-01-15T10:30:00Z\n")
  {
    assert "2024-01-15T10:30:00Z\n"[..20] == "2024-01-15T10:30:00Z";
    GoodTsValid();
  }

  lemma TimestampUnicodeDigitAccepted()
    ensures Iso8601AsWritten("\U{FF12}024-01-15T10:30:00Z") && !IsIso8601Z("\U{FF12}024-01-15T10:30:00Z")
  {
    assert !IsAsciiDigit("\U{FF12}024-01-15T10:30:00Z"[0]);
  }

  lemma DigitClassesAgreeOnAscii(v: string, lo: nat, hi: nat)
    requires lo <= hi <= |v| && IsAscii(v)
    ensures DigitsIn(v, lo, hi, IsPythonDecimal) <==> DigitsIn(v, lo, hi, IsAsciiDigit)
  {
    if DigitsIn(v, lo, hi, IsPythonDecimal) {
      forall i | lo <= i < hi ensures IsAsciiDigit(v[i]) {
        assert v[i] as int < 128 && IsPythonDecimal(v[i]);
      }
    }
  }

  /**
   * The strict matcher is exactly the source's regular expression restricted to
   * the inputs the pattern was written for: it accepts nothing the source rejects,
   * and on ASCII input without a final newline it accepts everything the source does.
   */
  lemma E164StrictIsExactMatch(v: string)
    ensures IsE164(v) ==> E164AsWritten(v) && IsAscii(v) && v[|v| - 1] != '\n'
    ensures IsAscii(v) && (|v| == 0 || v[|v| - 1] != '\n') && E164AsWritten(v) ==> IsE164(v)
  {
    if IsAscii(v) && |v| >= 1 {
      DigitClassesAgreeOnAscii(v, 1, |v|);
    }
  }

  lemma FractionAgreesOnAscii(f: string)
    requires IsAscii(f)
    ensures FractionShape(f, IsPythonDecimal) <==> FractionShape(f, IsAsciiDigit)
  {
    if |f| >= 2 {
      DigitClassesAgreeOnAscii(f, 1, |f|);
    }
  }

  lemma TimestampStrictIsExactMatch(v: string)
    ensures IsIso8601Z(v) ==> Iso8601AsWritten(v) && IsAscii(v) && v[|v| - 1] != '\n'
    ensures IsAscii(v) && (|v| == 0 || v[|v| - 1] != '\n') && Iso8601AsWritten(v) ==> IsIso8601Z(v)
  {
    if IsIso8601Z(v) {
      var f := v[19..|v| - 1];
      if |f| >= 2 {
        assert forall i :: 1 <= i < |f| ==> f[i] == v[19 + i];
      }
      assert forall i :: 0 <= i < |v| ==> v[i] as int < 128 by {
        forall i | 0 <= i < |v| ensures v[i] as int < 128 {
          if 19 <= i < |v| - 1 {
            assert f[i - 19] == v[i];
          }
        }
      }
    }
    if IsAscii(v) && |v| >= 20 {
      DigitClassesAgreeOnAscii(v, 0, 4);
      DigitClassesAgreeOnAscii(v, 5, 7);
      DigitClassesAgreeOnAscii(v, 8, 10);
      DigitClassesAgreeOnAscii(v, 11, 13);
      DigitClassesAgreeOnAscii(v, 14, 16);
      DigitClassesAgreeOnAscii(v, 17, 19);
      var f := v[19..|v| - 1];
      assert IsAscii(f) by {
        forall i | 0 <= i < |f| ensures f[i] as int < 128 {
          assert f[i] == v[19 + i];
        }
      }
      FractionAgreesOnAscii(f);
    }
  }

  /** A string field on which the Unicode `\d` and the final-newline `$` make no difference. */
  predicate Plain(v: Json) {
    v.Str? ==> IsAscii(v.s) && (|v.s| == 0 || v.s[|v.s| - 1] != '\n')
  }

  /**
   * When `from`, `to` and `ts` are ASCII and do not end in a newline, the patterns
   * as written validate exactly as the strict rules do.
   */
  lemma RulesAgreeOnPlainFields(e: Envelope)
    requires e.Object? ==> Plain(e.from) && Plain(e.to) && Plain(e.ts)
    ensures Validate(e, AsWritten) == Validate(e, Strict)
  {
    if e.Object? {
      if e.from.Str? { E164StrictIsExactMatch(e.from.s); }
      if e.to.Str? { E164StrictIsExactMatch(e.to.s); }
      if e.ts.Str? { TimestampStrictIsExactMatch(e.ts.s); }
      assert ProblemOf(e, From, AsWritten) == ProblemOf(e, From, Strict);
      assert ProblemOf(e, To, AsWritten) == ProblemOf(e, To, Strict);
      assert ProblemOf(e, Ts, AsWritten) == ProblemOf(e, Ts, Strict);
      assert ObjectViolations(e, AsWritten) == ObjectViolations(e, Strict);
    }
  }

  /** A `from` of "+123\n" passes validation as written, and the payload keeps the newline. */
  lemma TrailingNewlineNumberValidates()
    ensures Validate(Sample("+123\n", GoodTs, Missing), AsWritten)
            == Success(Payload("msg-001", "+123\n", "+9876543210", GoodTs, None))
  {
    E164TrailingNewlineAccepted();
    SampleAsWrittenValid();
    AsWrittenClean(Sample("+123\n", GoodTs, Missing));
    ValidateObject(Sample("+123\n", GoodTs, Missing), AsWritten);
  }

  /** An object without text whose fields pass the patterns as written has no violation. */
  lemma AsWrittenClean(e: Envelope)
    requires e.Object? && e.messageId.Str? && e.from.Str? && e.to.Str? && e.ts.Str? && e.text.Missing?
    requires |e.messageId.s| >= 1 && E164AsWritten(e.from.s) && E164AsWritten(e.to.s) && Iso8601AsWritten(e.ts.s)
    ensures ObjectViolations(e, AsWritten) == []
  {
    assert Report(MessageId, ProblemOf(e, MessageId, AsWritten)) == [];
    assert Report(From, ProblemOf(e, From, AsWritten)) == [];
    assert Report(To, ProblemOf(e, To, AsWritten)) == [];
    assert Report(Ts, ProblemOf(e, Ts, AsWritten)) == [];
    assert Report(Text, ProblemOf(e, Text, AsWritten)) == [];
  }

  /** The sample's other fields pass the patterns as written. */
  lemma SampleAsWrittenValid()
    ensures E164AsWritten("+9876543210") && Iso8601AsWritten(GoodTs)
  {
    SampleNumbersValid();
    GoodTsValid();
  }

  /** The strict rules refuse the same envelope, on `from` alone. */
  lemma TrailingNewlineStrictlyRefused()
    ensures Validate(Sample("+123\n", GoodTs, Missing)) == Failure([Violation(From, BadFormat)])
  {
    assert Report(From, RequiredProblem(Str("+123\n"), IsE164, BadFormat)) == [Violation(From, BadFormat)] by {
      E164TrailingNewlineAccepted();
    }
    assert Report(Ts, RequiredProblem(Str(GoodTs), IsIso8601Z, BadFormat)) == [] by {
      GoodTsValid();
    }
    assert Report(Text, TextProblem(Missing)) == [];
    ValidateSample("+123\n", GoodTs, Missing);
    assert [Violation(From, BadFormat)] + [] + [] == [Violation(From, BadFormat)];
  }
}

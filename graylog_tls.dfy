/**
 * The Graylog handler's payload builder: configuration defaults, the
 * conversion of extra-field values to text, and the construction and
 * validation of the GELF 1.1 payload that would be handed to the TLS
 * transport. The transport itself (sockets, timers) is not modelled; the
 * payload is returned instead.
 */
module GraylogTls {

  import opened Wrappers
  import opened Text
  import opened Types

  // ---------------------------------------------------------------------------
  // Configuration

  const DEFAULT_HOST: string := "127.0.0.1"
  const DEFAULT_PORT: int := 12201
  const DEFAULT_TIMEOUT: int := 1000

  /**
   * The handler's settings: the origin host name reported in payloads, the
   * collector's address and port, and the connection timeout in milliseconds.
   */
  datatype GraylogTLSHandlerConfig = GraylogTLSHandlerConfig(hostname: string, host: string, port: int, timeout: int)

  /** The settings a caller may pass; an absent one takes its default. */
  datatype GraylogTLSHandlerOptions = GraylogTLSHandlerOptions(
    hostname: Option<string>, host: Option<string>, port: Option<int>, timeout: Option<int>)

  /**
   * The constructor: host "127.0.0.1", port 12201, timeout 1000 ms and the
   * machine's host name (`localHostname`), each overridden by a supplied option.
   */
  function NewGraylogTLSHandler(options: GraylogTLSHandlerOptions, localHostname: string): (c: GraylogTLSHandlerConfig)
    ensures c.hostname == if options.hostname.Some? then options.hostname.value else localHostname
    ensures c.host == if options.host.Some? then options.host.value else DEFAULT_HOST
    ensures c.port == if options.port.Some? then options.port.value else DEFAULT_PORT
    ensures c.timeout == if options.timeout.Some? then options.timeout.value else DEFAULT_TIMEOUT
  {
    GraylogTLSHandlerConfig(
      options.hostname.GetOr(localHostname), options.host.GetOr(DEFAULT_HOST),
      options.port.GetOr(DEFAULT_PORT), options.timeout.GetOr(DEFAULT_TIMEOUT))
  }

  /** A configuration spelled out in full as options. */
  function AsOptions(c: GraylogTLSHandlerConfig): GraylogTLSHandlerOptions {
    GraylogTLSHandlerOptions(Some(c.hostname), Some(c.host), Some(c.port), Some(c.timeout))
  }

  /** Supplying every setting leaves no default in play, whatever the machine is called. */
  lemma FullOptionsOverrideDefaults(c: GraylogTLSHandlerConfig, localHostname: string)
    ensures NewGraylogTLSHandler(AsOptions(c), localHostname) == c
  {
  }

  /** The reason a connection attempt fails with when the timeout fires. */
  function TimeoutMessage(timeout: int): string {
    "Timeout (" + IntToString(timeout) + " ms)"
  }

  /** The timeout reason carries the configured duration, which reads back from between its fixed parts. */
  lemma TimeoutMessageNamesDuration(timeout: int)
    ensures var m := TimeoutMessage(timeout);
      |m| > 13 && m[..9] == "Timeout (" && m[|m| - 4..] == " ms)" && ParseInt(m[9..|m| - 4]) == Some(timeout)
  {
    var m := TimeoutMessage(timeout);
    assert m[9..|m| - 4] == IntToString(timeout);
    ParseIntOfIntToString(timeout);
  }

  // ---------------------------------------------------------------------------
  // Date.prototype.toISOString

  /** The year as toISOString writes it: four digits for 0 to 9999, otherwise a sign and six digits. */
  function IsoYear(year: int): string {
    if 0 <= year <= 9999 then ZeroPad(year, 4)
    else if year < 0 then "-" + ZeroPad(-year, 6)
    else "+" + ZeroPad(year, 6)
  }

  /** Two fields, each after its own separator character: `a x b y`. */
  function Fields2(a: char, x: string, b: char, y: string): string {
    [a] + x + [b] + y
  }

  /** "-MM-DDTHH:mm:ss.sssZ": everything after the year. */
  function IsoTail(d: DateTime): string {
    Fields2('-', ZeroPad(d.month + 1, 2), '-', ZeroPad(d.day, 2)) +
    Fields2('T', ZeroPad(d.hours, 2), ':', ZeroPad(d.minutes, 2)) +
    Fields2(':', ZeroPad(d.seconds, 2), '.', ZeroPad(d.millis, 3)) + "Z"
  }

  /**
   * `toISOString()` of a valid Date, from its UTC calendar fields (the date
   * time string format of section 21.4.1.32 of ECMA-262, with expanded years
   * outside 0 to 9999).
   */
  function IsoString(d: DateTime): string {
    IsoYear(d.year) + IsoTail(d)
  }

  /** Reads a year written by IsoYear. */
  function ParseIsoYear(y: string): Option<int> {
    if |y| == 4 then
      match ParseNat(y)
      case Some(n) => Some(n)
      case None => None
    else if |y| == 7 && (y[0] == '+' || y[0] == '-') then
      match ParseNat(y[1..])
      case Some(n) => if y[0] == '-' then Some(-(n as int)) else Some(n)
      case None => None
    else None
  }

  /** Reads two fields written by Fields2, the first `wx` characters wide. */
  function ParseFields2(t: string, a: char, b: char, wx: nat): Option<(nat, nat)>
    requires |t| >= wx + 2
  {
    if t[0] == a && t[1 + wx] == b then
      match (ParseNat(t[1..1 + wx]), ParseNat(t[2 + wx..]))
      case (Some(m), Some(n)) => Some((m, n))
      case _ => None
    else None
  }

  /** Reads an ISO date-time string back into UTC calendar fields. */
  function ParseIsoString(s: string): Option<DateTime> {
    if |s| < 24 then None
    else
      var t := s[|s| - 20..];
      var year, date := ParseIsoYear(s[..|s| - 20]), ParseFields2(t[..6], '-', '-', 2);
      var clock, secs := ParseFields2(t[6..12], 'T', ':', 2), ParseFields2(t[12..19], ':', '.', 2);
      if year.Some? && date.Some? && clock.Some? && secs.Some? && t[19] == 'Z' && date.value.0 >= 1
      then Some(DateTime(year.value, date.value.0 - 1, date.value.1, clock.value.0, clock.value.1,
                         secs.value.0, secs.value.1))
      else None
  }

  lemma Fields2RoundTrip(a: char, x: string, b: char, y: string, m: nat, n: nat)
    requires ParseNat(x) == Some(m) && ParseNat(y) == Some(n)
    ensures |Fields2(a, x, b, y)| == |x| + |y| + 2
    ensures ParseFields2(Fields2(a, x, b, y), a, b, |x|) == Some((m, n))
  {
    var t := Fields2(a, x, b, y);
    assert t[0] == a && t[1 + |x|] == b;
    assert t[1..1 + |x|] == x && t[2 + |x|..] == y;
  }

  lemma TailPieces(y: string, p: string, q: string, r: string)
    requires |p| == 6 && |q| == 6 && |r| == 7
    ensures var s := y + (p + q + r + "Z");
      && |s| == |y| + 20
      && s[..|s| - 20] == y
      && s[|s| - 20..][..6] == p && s[|s| - 20..][6..12] == q && s[|s| - 20..][12..19] == r
      && s[|s| - 20..][19] == 'Z'
  {
    var t := p + q + r + "Z";
    var s := y + t;
    assert s[..|s| - 20] == y && s[|s| - 20..] == t;
    assert t[..6] == p && t[6..12] == q && t[12..19] == r;
  }

  lemma PaddedField(n: nat, k: nat)
    requires 1 <= k <= 6 && n < Pow10(k)
    ensures |ZeroPad(n, k)| == k && ParseNat(ZeroPad(n, k)) == Some(n)
  {
    ZeroPadLength(n, k);
    ParseNatOfZeroPad(n, k);
  }

  lemma SignedYear(sign: char, n: nat)
    requires (sign == '+' || sign == '-') && n < Pow10(6)
    ensures |[sign] + ZeroPad(n, 6)| == 7
    ensures ParseIsoYear([sign] + ZeroPad(n, 6)) == Some(if sign == '-' then -(n as int) else n as int)
  {
    PaddedField(n, 6);
    var y := [sign] + ZeroPad(n, 6);
    assert y[0] == sign && y[1..] == ZeroPad(n, 6);
  }

  lemma IsoYearRoundTrip(year: int)
    requires -271821 <= year <= 275760
    ensures |IsoYear(year)| == if 0 <= year <= 9999 then 4 else 7
    ensures ParseIsoYear(IsoYear(year)) == Some(year)
  {
    if 0 <= year <= 9999 {
      assert Pow10(4) == 10000;
      PaddedField(year, 4);
    } else {
      assert Pow10(6) == 1000000;
      if year < 0 {
        var n: nat := -year;
        assert IsoYear(year) == ['-'] + ZeroPad(n, 6);
        SignedYear('-', n);
      } else {
        assert IsoYear(year) == ['+'] + ZeroPad(year, 6);
        SignedYear('+', year);
      }
    }
  }

  /** A year followed by three well-formed field pairs and "Z" reads back to the fields they hold. */
  lemma ParseIsoLayout(y: string, p: string, q: string, r: string, d: DateTime)
    requires |y| >= 4 && |p| == 6 && |q| == 6 && |r| == 7
    requires ParseIsoYear(y) == Some(d.year)
    requires ParseFields2(p, '-', '-', 2) == Some((d.month + 1, d.day))
    requires ParseFields2(q, 'T', ':', 2) == Some((d.hours, d.minutes))
    requires ParseFields2(r, ':', '.', 2) == Some((d.seconds, d.millis))
    ensures ParseIsoString(y + (p + q + r + "Z")) == Some(d)
  {
    TailPieces(y, p, q, r);
  }

  /** The three field pairs of the tail, each read back to the fields it was written from. */
  lemma IsoTailPairs(d: DateTime)
    requires WellFormed(d)
    ensures var p := Fields2('-', ZeroPad(d.month + 1, 2), '-', ZeroPad(d.day, 2));
      |p| == 6 && ParseFields2(p, '-', '-', 2) == Some((d.month + 1, d.day))
    ensures var q := Fields2('T', ZeroPad(d.hours, 2), ':', ZeroPad(d.minutes, 2));
      |q| == 6 && ParseFields2(q, 'T', ':', 2) == Some((d.hours, d.minutes))
    ensures var r := Fields2(':', ZeroPad(d.seconds, 2), '.', ZeroPad(d.millis, 3));
      |r| == 7 && ParseFields2(r, ':', '.', 2) == Some((d.seconds, d.millis))
  {
    assert Pow10(2) == 100 && Pow10(3) == 1000;
    PaddedField(d.month + 1, 2);
    PaddedField(d.day, 2);
    PaddedField(d.hours, 2);
    PaddedField(d.minutes, 2);
    PaddedField(d.seconds, 2);
    PaddedField(d.millis, 3);
    Fields2RoundTrip('-', ZeroPad(d.month + 1, 2), '-', ZeroPad(d.day, 2), d.month + 1, d.day);
    Fields2RoundTrip('T', ZeroPad(d.hours, 2), ':', ZeroPad(d.minutes, 2), d.hours, d.minutes);
    Fields2RoundTrip(':', ZeroPad(d.seconds, 2), '.', ZeroPad(d.millis, 3), d.seconds, d.millis);
  }

  lemma IsoStringLength(d: DateTime)
    requires WellFormed(d)
    ensures |IsoString(d)| == if 0 <= d.year <= 9999 then 24 else 27
  {
    assert |IsoYear(d.year)| == if 0 <= d.year <= 9999 then 4 else 7 by {
      IsoYearRoundTrip(d.year);
    }
    assert |IsoTail(d)| == 20 by {
      IsoTailPairs(d);
    }
  }

  lemma IsoStringParses(d: DateTime)
    requires WellFormed(d)
    ensures ParseIsoString(IsoString(d)) == Some(d)
  {
    var p := Fields2('-', ZeroPad(d.month + 1, 2), '-', ZeroPad(d.day, 2));
    var q := Fields2('T', ZeroPad(d.hours, 2), ':', ZeroPad(d.minutes, 2));
    var r := Fields2(':', ZeroPad(d.seconds, 2), '.', ZeroPad(d.millis, 3));
    IsoTailPairs(d);
    IsoYearRoundTrip(d.year);
    assert IsoString(d) == IsoYear(d.year) + (p + q + r + "Z");
    ParseIsoLayout(IsoYear(d.year), p, q, r, d);
  }

  /** The ISO string of a valid date is 24 characters (27 with an expanded year) and reads back to the same date. */
  lemma IsoStringRoundTrip(d: DateTime)
    requires WellFormed(d)
    ensures |IsoString(d)| == if 0 <= d.year <= 9999 then 24 else 27
    ensures ParseIsoString(IsoString(d)) == Some(d)
  {
    IsoStringLength(d);
    IsoStringParses(d);
  }

  // ---------------------------------------------------------------------------
  // _anyToString

  const INVALID_TIME: JsError := JsError("RangeError", "Invalid time value")

  /**
   * `_anyToString`: null and undefined by name, a string as it is, a Date as
   * its ISO string (an invalid Date makes toISOString throw), another object
   * as its JSON text, a function as its source text, a boolean or an integer
   * as `String()` writes it.
   */
  function AnyToString(v: Value): (r: Result<string, JsError>)
    ensures r.Err? <==> v == Date(None)
    ensures r.Err? ==> r.error == INVALID_TIME
    ensures v == Null ==> r == Ok("null")
    ensures v == Undefined ==> r == Ok("undefined")
    ensures v.Str? ==> r == Ok(v.s)
  {
    match v
    case Null => Ok("null")
    case Undefined => Ok("undefined")
    case Str(s) => Ok(s)
    case Date(t) =>
      (match t
       case Some(d) => Ok(IsoString(d))
       case None => Err(INVALID_TIME))
    case Obj(json) => Ok(json)
    case Func(source) => Ok(source)
    case Bool(b) => Ok(if b then "true" else "false")
    case Integer(i) => Ok(IntToString(i))
    case OtherScalar(text) => Ok(text)
  }

  /** Objects, functions and other scalars are rendered by the library call the value records. */
  lemma AnyToStringLibraryCases(v: Value)
    ensures v.Obj? ==> AnyToString(v) == Ok(v.json)
    ensures v.Func? ==> AnyToString(v) == Ok(v.source)
    ensures v.OtherScalar? ==> AnyToString(v) == Ok(v.text)
    ensures v.Bool? ==> AnyToString(v) == Ok(if v.b then "true" else "false")
  {
  }

  /** A valid Date becomes a 24- or 27-character ISO string that reads back to the same instant. */
  lemma DateCoercion(d: DateTime)
    requires WellFormed(d)
    ensures AnyToString(Date(Some(d))).Ok?
    ensures ParseIsoString(AnyToString(Date(Some(d))).value) == Some(d)
  {
    assert AnyToString(Date(Some(d))) == Ok(IsoString(d));
    IsoStringRoundTrip(d);
  }

  /** An integer becomes its decimal text, which reads back to the same integer. */
  lemma IntegerCoercion(i: int)
    ensures AnyToString(Integer(i)).Ok?
    ensures ParseInt(AnyToString(Integer(i)).value) == Some(i)
  {
    ParseIntOfIntToString(i);
  }

  // ---------------------------------------------------------------------------
  // Field names

  /** A character `[\w.\-]` matches: an ASCII letter or digit, '_', '.' or '-'. */
  predicate IsFieldNameChar(c: char) {
    ('A' <= c <= 'Z') || ('a' <= c <= 'z') || ('0' <= c <= '9') || c == '_' || c == '.' || c == '-'
  }

  /** `/^[\w\.\-]*$/.test(key)`: every character is allowed; the empty name is too. */
  predicate ValidFieldName(key: string) {
    forall i :: 0 <= i < |key| ==> IsFieldNameChar(key[i])
  }

  /** The pattern as the error message prints it. */
  const FIELD_NAME_PATTERN: string := "/^[\\w\\.\\-]*$/"

  const INVALID_FIELD_PREFIX: string := "Extra field '"

  /** The Error thrown for an extra field whose name does not match the pattern. */
  function InvalidFieldError(key: string): JsError {
    JsError("Error", INVALID_FIELD_PREFIX + key + "' has an invalid format (must satisfy " + FIELD_NAME_PATTERN + " regular expression)")
  }

  /** The error names the offending key, right after its fixed opening. */
  lemma InvalidFieldErrorNamesKey(key: string)
    ensures var m := InvalidFieldError(key).message;
      |m| > 13 + |key| && m[..13] == INVALID_FIELD_PREFIX && m[13..13 + |key|] == key
  {
  }

  // ---------------------------------------------------------------------------
  // The payload

  /**
   * A GELF payload: the fixed fields and the additional fields, whose names
   * start with '_'. `full_message` is absent unless set.
   */
  datatype GelfPayload = GelfPayload(
    version: string, host: string, timestamp: real, level: int,
    short_message: string, full_message: Option<string>, additional: map<string, string>)

  const GELF_VERSION: string := "1.1"

  const ID_WARNING: string := "Removing extra field 'id' (https://go2docs.graylog.org/current/getting_in_log_data/gelf.html)"

  /** The three identity fields every payload starts with. */
  function IdentityFields(identity: LoggerConfig): (m: map<string, string>)
    ensures m.Keys == {"_logger_version", "_operation_id", "_project_name"}
    ensures m["_logger_version"] == identity.logger_version
    ensures m["_operation_id"] == identity.operation_id
    ensures m["_project_name"] == identity.project_name
  {
    map["_logger_version" := identity.logger_version, "_operation_id" := identity.operation_id,
        "_project_name" := identity.project_name]
  }

  /** `short_message`: the string, or an Error's message with "Error" standing in for an empty one. */
  function ShortMessage(message: Message): (s: string)
    ensures message.Plain? ==> s == message.text
    ensures message.Fault? ==> s == if message.error.message == "" then "Error" else message.error.message
  {
    match message
    case Plain(text) => text
    case Fault(e, _) => if e.message != "" then e.message else "Error"
  }

  /** `full_message`: an Error's stack, when it has one; never set for a string. */
  function FullMessage(message: Message): (s: Option<string>)
    ensures message.Plain? ==> s == None
    ensures message.Fault? ==> s == message.stack
  {
    match message
    case Plain(_) => None
    case Fault(_, stack) => stack
  }

  /** The payload before any extra field is added. */
  function BasePayload(config: GraylogTLSHandlerConfig, identity: LoggerConfig, message: Message,
                       level: int, timestamp: real): GelfPayload {
    GelfPayload(GELF_VERSION, config.hostname, timestamp, level, ShortMessage(message), FullMessage(message),
                IdentityFields(identity))
  }

  /** Whether an extra field gets through: its name matches and its value converts. */
  predicate FieldOk(field: (string, Value)) {
    ValidFieldName(field.0) && AnyToString(field.1).Ok?
  }

  /** What an extra field that does not get through throws. */
  function FieldError(field: (string, Value)): JsError
    requires !FieldOk(field)
  {
    if !ValidFieldName(field.0) then InvalidFieldError(field.0) else AnyToString(field.1).error
  }

  /**
   * `payload[name] = text`. The name `__proto__` reaches the inherited
   * accessor, which ignores a string, so that field is never set.
   */
  function SetField(additional: map<string, string>, name: string, text: string): (m: map<string, string>)
    ensures name == PROTO_KEY ==> m == additional
    ensures name != PROTO_KEY ==> m.Keys == additional.Keys + {name} && m[name] == text
    ensures forall k :: k in additional && k != name ==> k in m && m[k] == additional[k]
  {
    if name == PROTO_KEY then additional else additional[name := text]
  }

  /** The `for...in` loop over the extra fields: each checked in turn, the first bad one throws. */
  function AddFields(p: GelfPayload, fields: Entries): Result<GelfPayload, JsError>
    decreases |fields|
  {
    if fields == [] then Ok(p)
    else
      var (key, value) := fields[0];
      if !ValidFieldName(key) then Err(InvalidFieldError(key))
      else
        match AnyToString(value)
        case Err(e) => Err(e)
        case Ok(s) => AddFields(p.(additional := SetField(p.additional, "_" + key, s)), fields[1..])
  }

  /**
   * The payload `message` would send for the extra fields that remain once
   * `id` is gone, or what it throws.
   */
  function BuildPayload(config: GraylogTLSHandlerConfig, identity: LoggerConfig, message: Message,
                        level: int, fields: Entries, timestamp: real): Result<GelfPayload, JsError> {
    AddFields(BasePayload(config, identity, message, level, timestamp), fields)
  }

  /**
   * The additional fields the convertible extra fields contribute: '_' + name
   * to converted value, a later field winning, and nothing under `__proto__`.
   */
  function ExtensionFields(fields: Entries): map<string, string>
    decreases |fields|
  {
    if fields == [] then map[]
    else
      var head := match AnyToString(fields[0].1)
        case Ok(s) => if "_" + fields[0].0 == PROTO_KEY then map[] else map["_" + fields[0].0 := s]
        case Err(_) => map[];
      head + ExtensionFields(fields[1..])
  }

  predicate AllFieldsOk(fields: Entries) {
    forall i :: 0 <= i < |fields| ==> FieldOk(fields[i])
  }

  lemma AllFieldsOkTail(fields: Entries)
    requires fields != [] && AllFieldsOk(fields)
    ensures FieldOk(fields[0]) && AllFieldsOk(fields[1..])
  {
    forall i | 0 <= i < |fields[1..]| ensures FieldOk(fields[1..][i]) {
      assert fields[1..][i] == fields[i + 1];
    }
  }

  lemma DistinctKeysTail(fields: Entries)
    requires fields != [] && DistinctKeys(fields)
    ensures DistinctKeys(fields[1..]) && !HasKey(fields[1..], fields[0].0)
  {
    var rest := fields[1..];
    forall i, j | 0 <= i < j < |rest| ensures rest[i].0 != rest[j].0 {
      assert rest[i] == fields[i + 1] && rest[j] == fields[j + 1];
    }
    forall i | 0 <= i < |rest| ensures rest[i].0 != fields[0].0 {
      assert rest[i] == fields[i + 1];
    }
  }

  lemma UpdateThenUnion(m: map<string, string>, k: string, v: string, e: map<string, string>)
    ensures m[k := v] + e == m + (map[k := v] + e)
  {
  }

  lemma {:induction false} AddFieldsAllOk(p: GelfPayload, fields: Entries)
    requires AllFieldsOk(fields)
    ensures AddFields(p, fields) == Ok(p.(additional := p.additional + ExtensionFields(fields)))
    decreases |fields|
  {
    if fields == [] {
      assert p.additional + ExtensionFields(fields) == p.additional;
    } else {
      AllFieldsOkTail(fields);
      var (key, value) := fields[0];
      var s := AnyToString(value).value;
      var rest := ExtensionFields(fields[1..]);
      var q := p.(additional := SetField(p.additional, "_" + key, s));
      assert AddFields(p, fields) == AddFields(q, fields[1..]);
      AddFieldsAllOk(q, fields[1..]);
      if "_" + key == PROTO_KEY {
        assert q == p;
        assert ExtensionFields(fields) == map[] + rest == rest;
      } else {
        assert ExtensionFields(fields) == map["_" + key := s] + rest;
        UpdateThenUnion(p.additional, "_" + key, s, rest);
      }
    }
  }

  lemma {:induction false} AddFieldsFirstFailure(p: GelfPayload, fields: Entries, i: nat)
    requires i < |fields| && !FieldOk(fields[i])
    requires forall j :: 0 <= j < i ==> FieldOk(fields[j])
    ensures AddFields(p, fields) == Err(FieldError(fields[i]))
    decreases i
  {
    if i > 0 {
      var (key, value) := fields[0];
      assert FieldOk(fields[0]);
      var q := p.(additional := SetField(p.additional, "_" + key, AnyToString(value).value));
      assert fields[1..][i - 1] == fields[i];
      forall j | 0 <= j < i - 1 ensures FieldOk(fields[1..][j]) {
        assert fields[1..][j] == fields[j + 1];
      }
      AddFieldsFirstFailure(q, fields[1..], i - 1);
    }
  }

  /**
   * The payload's fixed fields: version "1.1", the configured origin host, the
   * level passed through unchanged, the message fields, and the identity and
   * extra fields, an extra field replacing an identity field of the same name.
   */
  lemma PayloadWhenFieldsOk(config: GraylogTLSHandlerConfig, identity: LoggerConfig, message: Message,
                            level: int, fields: Entries, timestamp: real)
    requires AllFieldsOk(fields)
    ensures var r := BuildPayload(config, identity, message, level, fields, timestamp);
      && r.Ok?
      && r.value.version == "1.1" && r.value.host == config.hostname && r.value.level == level
      && r.value.timestamp == timestamp
      && r.value.short_message == ShortMessage(message) && r.value.full_message == FullMessage(message)
      && r.value.additional == IdentityFields(identity) + ExtensionFields(fields)
  {
    AddFieldsAllOk(BasePayload(config, identity, message, level, timestamp), fields);
  }

  lemma {:induction false} AddFieldsFailsIff(p: GelfPayload, fields: Entries)
    ensures AddFields(p, fields).Err? <==> !AllFieldsOk(fields)
    decreases |fields|
  {
    if fields != [] {
      var (key, value) := fields[0];
      if FieldOk(fields[0]) {
        var q := p.(additional := SetField(p.additional, "_" + key, AnyToString(value).value));
        assert AddFields(p, fields) == AddFields(q, fields[1..]);
        AddFieldsFailsIff(q, fields[1..]);
        assert AllFieldsOk(fields) <==> AllFieldsOk(fields[1..]) by {
          if AllFieldsOk(fields) {
            AllFieldsOkTail(fields);
          }
          if AllFieldsOk(fields[1..]) {
            forall i | 0 <= i < |fields| ensures FieldOk(fields[i]) {
              if i > 0 {
                assert fields[i] == fields[1..][i - 1];
              }
            }
          }
        }
      }
    }
  }

  /** `message` throws exactly when some extra field has a bad name or an unconvertible value. */
  lemma PayloadFailsIff(config: GraylogTLSHandlerConfig, identity: LoggerConfig, message: Message,
                        level: int, fields: Entries, timestamp: real)
    ensures BuildPayload(config, identity, message, level, fields, timestamp).Err? <==>
      exists i :: 0 <= i < |fields| && !FieldOk(fields[i])
  {
    AddFieldsFailsIff(BasePayload(config, identity, message, level, timestamp), fields);
  }

  /**
   * The first field that does not get through decides the error: a bad name
   * throws an Error naming the key, a bad value the conversion's error.
   */
  lemma FirstBadFieldThrows(config: GraylogTLSHandlerConfig, identity: LoggerConfig, message: Message,
                            level: int, fields: Entries, timestamp: real, i: nat)
    requires i < |fields| && !FieldOk(fields[i])
    requires forall j :: 0 <= j < i ==> FieldOk(fields[j])
    ensures !ValidFieldName(fields[i].0) ==>
      BuildPayload(config, identity, message, level, fields, timestamp) == Err(InvalidFieldError(fields[i].0))
    ensures ValidFieldName(fields[i].0) ==>
      BuildPayload(config, identity, message, level, fields, timestamp) == Err(INVALID_TIME)
  {
    AddFieldsFirstFailure(BasePayload(config, identity, message, level, timestamp), fields, i);
  }

  lemma UnderscoreInjective(a: string, b: string)
    requires "_" + a == "_" + b
    ensures a == b
  {
    assert a == ("_" + a)[1..];
  }

  /** An additional field the extra fields contribute comes from an extra field of that name. */
  lemma {:induction false} ExtensionFieldsFrom(fields: Entries, key: string)
    ensures "_" + key in ExtensionFields(fields) ==> HasKey(fields, key)
    decreases |fields|
  {
    if fields != [] {
      ExtensionFieldsFrom(fields[1..], key);
      HasKeyCons(fields, key);
      if "_" + key in ExtensionFields(fields) && "_" + key !in ExtensionFields(fields[1..]) {
        UnderscoreInjective(key, fields[0].0);
      }
    }
  }

  /** No extra field contributes `__proto__`: the assignment never sets it. */
  lemma {:induction false} ExtensionFieldsNoProto(fields: Entries)
    ensures PROTO_KEY !in ExtensionFields(fields)
    decreases |fields|
  {
    if fields != [] {
      ExtensionFieldsNoProto(fields[1..]);
    }
  }

  /**
   * With distinct names, each extra field appears under '_' + its name with
   * its converted value, unless that name is `__proto__`.
   */
  lemma {:induction false} ExtensionFieldsAt(fields: Entries, i: nat)
    requires AllFieldsOk(fields) && DistinctKeys(fields) && i < |fields|
    ensures "_" + fields[i].0 != PROTO_KEY ==>
      && "_" + fields[i].0 in ExtensionFields(fields)
      && ExtensionFields(fields)["_" + fields[i].0] == AnyToString(fields[i].1).value
    decreases i
  {
    AllFieldsOkTail(fields);
    DistinctKeysTail(fields);
    var rest := fields[1..];
    if i == 0 {
      ExtensionFieldsFrom(rest, fields[0].0);
    } else {
      assert fields[i] == rest[i - 1];
      ExtensionFieldsAt(rest, i - 1);
    }
  }

  /**
   * In a successful payload every extra field appears under '_' + its name
   * with its converted value, overriding an identity field of that name; a
   * field named `_proto__` is silently not sent.
   */
  lemma PayloadCarriesField(config: GraylogTLSHandlerConfig, identity: LoggerConfig, message: Message,
                            level: int, fields: Entries, timestamp: real, i: nat)
    requires AllFieldsOk(fields) && DistinctKeys(fields) && i < |fields|
    ensures var r := BuildPayload(config, identity, message, level, fields, timestamp);
      && r.Ok?
      && ("_" + fields[i].0 != PROTO_KEY ==>
            && "_" + fields[i].0 in r.value.additional
            && r.value.additional["_" + fields[i].0] == AnyToString(fields[i].1).value)
      && ("_" + fields[i].0 == PROTO_KEY ==> PROTO_KEY !in r.value.additional)
  {
    PayloadWhenFieldsOk(config, identity, message, level, fields, timestamp);
    ExtensionFieldsAt(fields, i);
    ExtensionFieldsNoProto(fields);
  }

  /**
   * A successful payload holds '_' + a name only for an identity field or an
   * extra field of that name; an identity field no extra field names keeps the
   * logger's value.
   */
  lemma PayloadFieldOrigin(config: GraylogTLSHandlerConfig, identity: LoggerConfig, message: Message,
                           level: int, fields: Entries, timestamp: real, key: string)
    requires AllFieldsOk(fields)
    ensures var r := BuildPayload(config, identity, message, level, fields, timestamp);
      && r.Ok?
      && ("_" + key in r.value.additional <==>
            "_" + key in IdentityFields(identity) || (HasKey(fields, key) && "_" + key != PROTO_KEY))
      && (!HasKey(fields, key) && "_" + key in IdentityFields(identity) ==>
            r.value.additional["_" + key] == IdentityFields(identity)["_" + key])
  {
    PayloadWhenFieldsOk(config, identity, message, level, fields, timestamp);
    ExtensionFieldsFrom(fields, key);
    ExtensionFieldsNoProto(fields);
    if HasKey(fields, key) {
      var i :| 0 <= i < |fields| && fields[i].0 == key;
      ExtensionFieldsHas(fields, i);
    }
  }

  /** Every convertible extra field not named `_proto__` contributes its additional field (whichever value wins). */
  lemma {:induction false} ExtensionFieldsHas(fields: Entries, i: nat)
    requires AllFieldsOk(fields) && i < |fields|
    ensures "_" + fields[i].0 != PROTO_KEY ==> "_" + fields[i].0 in ExtensionFields(fields)
    decreases i
  {
    AllFieldsOkTail(fields);
    if i > 0 {
      assert fields[i] == fields[1..][i - 1];
      ExtensionFieldsHas(fields[1..], i - 1);
    }
  }

  /** Once `id` has been deleted no `_id` field can be sent. */
  lemma NoIdField(config: GraylogTLSHandlerConfig, identity: LoggerConfig, message: Message,
                  level: int, fields: Entries, timestamp: real)
    ensures var r := BuildPayload(config, identity, message, level, Without(fields, "id"), timestamp);
      r.Ok? ==> "_id" !in r.value.additional
  {
    var rest := Without(fields, "id");
    WithoutKeys(fields, "id", "id");
    PayloadFailsIff(config, identity, message, level, rest, timestamp);
    assert "_" + "id" == "_id";
    if AllFieldsOk(rest) {
      PayloadFieldOrigin(config, identity, message, level, rest, timestamp, "id");
    }
  }

  // ---------------------------------------------------------------------------
  // The handler's `message`

  /** One step of the field loop: the field at `i` is checked, then copied, then the rest follow. */
  lemma AddFieldsStep(p: GelfPayload, fields: Entries, i: nat)
    requires i < |fields|
    ensures var (key, value) := fields[i];
      AddFields(p, fields[i..]) ==
        if !ValidFieldName(key) then Err(InvalidFieldError(key))
        else if AnyToString(value).Err? then Err(AnyToString(value).error)
        else AddFields(p.(additional := SetField(p.additional, "_" + key, AnyToString(value).value)), fields[i + 1..])
  {
    assert fields[i..][0] == fields[i] && fields[i..][1..] == fields[i + 1..];
  }

  /**
   * The `for...in` loop of `message`: copies each extra field, in order, under
   * '_' + its name, and stops with the error of the first field whose name
   * does not match or whose value does not convert.
   */
  method CopyFields(payload: GelfPayload, fields: Entries) returns (result: Result<GelfPayload, JsError>)
    ensures result == AddFields(payload, fields)
  {
    var p := payload;
    var i := 0;
    while i < |fields|
      invariant 0 <= i <= |fields|
      invariant AddFields(p, fields[i..]) == AddFields(payload, fields)
    {
      var (key, value) := fields[i];
      AddFieldsStep(p, fields, i);
      if !ValidFieldName(key) {
        return Err(InvalidFieldError(key));
      }
      var text := AnyToString(value);
      if text.Err? {
        return Err(text.error);
      }
      p := p.(additional := SetField(p.additional, "_" + key, text.value));
      i := i + 1;
    }
    assert fields[i..] == [];
    result := Ok(p);
  }

  /**
   * The handler's `message` up to the hand-over to the transport: builds the
   * payload's fixed fields; deletes `id` from the caller's extra object (with
   * a warning); copies each remaining extra field under '_' + its name, and
   * throws on the first bad name or value. On success the payload that would
   * be serialised and sent is returned.
   */
  method HandleMessage(config: GraylogTLSHandlerConfig, identity: LoggerConfig, message: Message, level: int,
                       extra: MessageExtra?, timestamp: real)
    returns (warning: Option<string>, result: Result<GelfPayload, JsError>)
    requires extra != null ==> extra.Valid()
    modifies extra
    ensures extra != null ==> extra.Valid() && extra.entries == Without(old(extra.entries), "id")
    ensures warning == if extra != null && HasKey(old(extra.entries), "id") then Some(ID_WARNING) else None
    ensures result == BuildPayload(config, identity, message, level,
                                   if extra == null then [] else Without(old(extra.entries), "id"), timestamp)
  {
    var payload := GelfPayload(GELF_VERSION, config.hostname, timestamp, level, "", None, IdentityFields(identity));
    match message {
      case Fault(e, stack) =>
        payload := payload.(short_message := if e.message != "" then e.message else "Error", full_message := stack);
      case Plain(text) =>
        payload := payload.(short_message := text);
    }
    assert payload == BasePayload(config, identity, message, level, timestamp);

    warning := None;
    var fields: Entries := [];
    if extra != null {
      if extra.Has("id") {
        warning := Some(ID_WARNING);
        extra.Delete("id");
      } else {
        WithoutAbsent(extra.entries, "id");
      }
      fields := extra.entries;
    }
    result := CopyFields(payload, fields);
  }
}

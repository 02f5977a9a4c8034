/**
 * The console handler: a level check, a line built by a formatter (by default
 * "<local date> - <level name> - <message>") and the console function the line
 * goes to. Writing the line is left to the caller: the handler's operation
 * returns the stream and the line instead.
 */
module Console {

  import opened Wrappers
  import opened Text
  import opened Types
  import Logger

  /** The console functions a line can be written with. */
  datatype Stream = DebugStream | InfoStream | WarnStream | ErrorStream

  /** `loggerFunctionByLevel`: Error and Critical share the error stream. */
  function StreamFor(level: Logger.MessageLevel): Stream {
    match level
    case Debug => DebugStream
    case Info => InfoStream
    case Warning => WarnStream
    case Error => ErrorStream
    case Critical => ErrorStream
  }

  /** `levelNameByLevel`. */
  function LevelName(level: Logger.MessageLevel): string {
    match level
    case Critical => "Critical"
    case Error => "Error"
    case Warning => "Warning"
    case Info => "Info"
    case Debug => "Debug"
  }

  /** Two levels share a stream only when both are Error or Critical. */
  lemma StreamSharing(a: Logger.MessageLevel, b: Logger.MessageLevel)
    ensures StreamFor(a) == StreamFor(b) <==>
      a == b || (a in {Logger.Error, Logger.Critical} && b in {Logger.Error, Logger.Critical})
  {
  }

  /** Every level has its own name. */
  lemma LevelNamesDistinct(a: Logger.MessageLevel, b: Logger.MessageLevel)
    ensures LevelName(a) == LevelName(b) ==> a == b
  {
  }

  // ---------------------------------------------------------------------------
  // Dates

  /**
   * `getDateString`: "Y-MM-DD HH:MM:SS" from the local calendar fields, the
   * month shifted from zero-based to one-based; every field but the year is
   * zero-padded to two characters, the year is not padded at all.
   */
  function DateString(d: DateTime): string {
    IntToString(d.year) + DateTail(d)
  }

  /** "-MM-DD HH:MM:SS": everything after the year. */
  function DateTail(d: DateTime): string {
    "-" + ZeroPad(d.month + 1, 2) + "-" + ZeroPad(d.day, 2) + " " +
    ZeroPad(d.hours, 2) + ":" + ZeroPad(d.minutes, 2) + ":" + ZeroPad(d.seconds, 2)
  }

  /** Reads a "Y-MM-DD HH:MM:SS" string back into calendar fields (milliseconds zero). */
  function ParseDateString(s: string): Option<DateTime> {
    if |s| < 16 then None else ParseDateParts(s[..|s| - 15], s[|s| - 15..])
  }

  /** Reads the year and the fixed-width "-MM-DD HH:MM:SS" tail. */
  function ParseDateParts(y: string, t: string): Option<DateTime>
    requires |t| == 15
  {
    var year, month, day := ParseInt(y), ParseNat(t[1..3]), ParseNat(t[4..6]);
    var hours, minutes, seconds := ParseNat(t[7..9]), ParseNat(t[10..12]), ParseNat(t[13..]);
    if && t[0] == '-' && t[3] == '-' && t[6] == ' ' && t[9] == ':' && t[12] == ':'
       && year.Some? && month.Some? && month.value >= 1 && day.Some?
       && hours.Some? && minutes.Some? && seconds.Some?
    then Some(DateTime(year.value, month.value - 1, day.value, hours.value, minutes.value, seconds.value, 0))
    else None
  }

  lemma TwoDigitField(n: nat)
    requires n < 100
    ensures |ZeroPad(n, 2)| == 2 && ParseNat(ZeroPad(n, 2)) == Some(n)
  {
    assert Pow10(2) == 100;
    ZeroPadLength(n, 2);
    ParseNatOfZeroPad(n, 2);
  }

  /** The part of a date string after the year: fixed separators at fixed places. */
  lemma TailLayout(mo: string, dd: string, h: string, mi: string, se: string)
    requires |mo| == 2 && |dd| == 2 && |h| == 2 && |mi| == 2 && |se| == 2
    ensures var t := "-" + mo + "-" + dd + " " + h + ":" + mi + ":" + se;
      && |t| == 15
      && t[0] == '-' && t[3] == '-' && t[6] == ' ' && t[9] == ':' && t[12] == ':'
      && t[1..3] == mo && t[4..6] == dd && t[7..9] == h && t[10..12] == mi && t[13..] == se
  {
  }

  /** A year followed by a well-formed tail reads back to the fields it was built from. */
  lemma ParseDateLayout(y: string, mo: string, dd: string, h: string, mi: string, se: string, d: DateTime)
    requires |mo| == 2 && |dd| == 2 && |h| == 2 && |mi| == 2 && |se| == 2
    requires ParseInt(y) == Some(d.year) && ParseNat(mo) == Some(d.month + 1) && ParseNat(dd) == Some(d.day)
    requires ParseNat(h) == Some(d.hours) && ParseNat(mi) == Some(d.minutes) && ParseNat(se) == Some(d.seconds)
    ensures ParseDateString(y + ("-" + mo + "-" + dd + " " + h + ":" + mi + ":" + se)) == Some(d.(millis := 0))
  {
    var t := "-" + mo + "-" + dd + " " + h + ":" + mi + ":" + se;
    TailLayout(mo, dd, h, mi, se);
    var s := y + t;
    assert s[..|s| - 15] == y && s[|s| - 15..] == t;
  }

  /** The date string determines every field it shows: it reads back to the same date, to the second. */
  lemma DateStringRoundTrip(d: DateTime)
    requires WellFormed(d)
    ensures ParseDateString(DateString(d)) == Some(d.(millis := 0))
  {
    var y := IntToString(d.year);
    var mo, dd, h := ZeroPad(d.month + 1, 2), ZeroPad(d.day, 2), ZeroPad(d.hours, 2);
    var mi, se := ZeroPad(d.minutes, 2), ZeroPad(d.seconds, 2);
    TwoDigitField(d.month + 1);
    TwoDigitField(d.day);
    TwoDigitField(d.hours);
    TwoDigitField(d.minutes);
    TwoDigitField(d.seconds);
    ParseIntOfIntToString(d.year);
    ParseDateLayout(y, mo, dd, h, mi, se, d);
  }

  // ---------------------------------------------------------------------------
  // Formatting and the handler

  /** `${message}`: a string as it is, an Error as `String(error)`. */
  function MessageText(message: Message): string {
    match message
    case Plain(text) => text
    case Fault(e, _) => ErrorToString(e)
  }

  /**
   * A line formatter: message, level code, extra fields and the current date
   * give the line, or what a caller-supplied formatter throws.
   */
  type Formatter = (Message, int, Entries, DateTime) -> Result<string, JsError>

  /** The default formatter: "<date string> - <level name> - <message>"; it never throws. */
  function DefaultFormatter(message: Message, level: int, extra: Entries, date: DateTime): Result<string, JsError> {
    var name := match Logger.LevelOf(level)
      case Some(l) => LevelName(l)
      case None => "undefined";
    Ok(DateString(date) + " - " + name + " - " + MessageText(message))
  }

  datatype ConsoleHandlerConfig = ConsoleHandlerConfig(formatter: Formatter, level: Logger.MessageLevel)

  /** The options a caller may pass; an absent one takes its default. */
  datatype ConsoleHandlerOptions = ConsoleHandlerOptions(formatter: Option<Formatter>, level: Option<Logger.MessageLevel>)

  /** The constructor: the default formatter and level Debug, each overridden by a supplied option. */
  function NewConsoleHandler(options: ConsoleHandlerOptions): (c: ConsoleHandlerConfig)
    ensures c.level == if options.level.Some? then options.level.value else Logger.Debug
    ensures options.formatter.Some? ==> c.formatter == options.formatter.value
    ensures options.formatter.None? ==> c.formatter == DefaultFormatter
  {
    ConsoleHandlerConfig(options.formatter.GetOr(DefaultFormatter), options.level.GetOr(Logger.Debug))
  }

  /** The text of the error `message` throws for a code that is not a level. */
  function InvalidLevelMessage(level: int): string {
    "Invalid log level: " + IntToString(level)
  }

  /**
   * The handler's `message`: an unknown level code throws before anything is
   * formatted; otherwise the configured formatter builds the line (with `{}`
   * for absent extra fields and `now` for the current date), or throws, and
   * the level picks the stream. `config.level` plays no part.
   */
  function HandleMessage(config: ConsoleHandlerConfig, identity: LoggerConfig, message: Message, level: int,
                         extra: Option<Entries>, now: DateTime): (r: Result<(Stream, string), JsError>)
    ensures var line := config.formatter(message, level, extra.GetOr([]), now);
      r.Err? <==> level !in {2, 3, 4, 6, 7} || line.Err?
    ensures level !in {2, 3, 4, 6, 7} ==> r == Err(JsError("Error", InvalidLevelMessage(level)))
    ensures var line := config.formatter(message, level, extra.GetOr([]), now);
      level in {2, 3, 4, 6, 7} && line.Err? ==> r == Err(line.error)
    ensures r.Ok? ==> r.value.0 == StreamFor(Logger.LevelOf(level).value)
    ensures r.Ok? ==> r.value.1 == config.formatter(message, level, extra.GetOr([]), now).value
  {
    match Logger.LevelOf(level)
    case None => Err(JsError("Error", InvalidLevelMessage(level)))
    case Some(l) =>
      match config.formatter(message, level, extra.GetOr([]), now)
      case Err(e) => Err(e)
      case Ok(line) => Ok((StreamFor(l), line))
  }

  /** The error names the offending code: what follows the fixed prefix reads back as the level. */
  lemma InvalidLevelNamesCode(level: int)
    ensures |InvalidLevelMessage(level)| > 19
    ensures ParseInt(InvalidLevelMessage(level)[19..]) == Some(level)
  {
    assert InvalidLevelMessage(level)[19..] == IntToString(level);
    ParseIntOfIntToString(level);
  }

  /** A handler built without a formatter writes "<date string> - <level name> - <message>". */
  lemma DefaultLine(options: ConsoleHandlerOptions, identity: LoggerConfig, message: Message,
                    level: Logger.MessageLevel, extra: Option<Entries>, now: DateTime)
    requires options.formatter.None?
    ensures HandleMessage(NewConsoleHandler(options), identity, message, Logger.Code(level), extra, now)
         == Ok((StreamFor(level), DateString(now) + " - " + LevelName(level) + " - " + MessageText(message)))
  {
    Logger.CodeRoundTrip(level);
  }

  /** No level filtering: the configured level never changes what `message` does. */
  lemma ConfiguredLevelIgnored(config: ConsoleHandlerConfig, other: Logger.MessageLevel, identity: LoggerConfig,
                               message: Message, level: int, extra: Option<Entries>, now: DateTime)
    ensures HandleMessage(config, identity, message, level, extra, now)
         == HandleMessage(config.(level := other), identity, message, level, extra, now)
  {
  }
}

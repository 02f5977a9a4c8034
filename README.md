# js_logger in Dafny

A model of the core of `js_logger`, a small structured logger for Node.js. A
`Logger` holds an identity and a registry of handlers keyed by label. Each log
call fans the event out to every handler and waits for all of them to settle.
If any handler failed it then throws a single `AggregateError` with one line
per failure. The code labels the k-th failure with the k-th registry key
rather than with the failing handler's own key (see Findings).
Two handlers are modelled:

- the **console handler** checks the level, formats a line
  ("`Y-MM-DD HH:MM:SS - Level - message`" by default) and picks the console
  stream for it;
- the **Graylog TLS handler** turns the event into a GELF 1.1 payload. It
  deletes a reserved `id` extra field with a warning, checks every other
  extra field name against `/^[\w\.\-]*$/`, converts each value to text and
  copies it in as `_<name>`.

Modules:

| file | module | models |
|---|---|---|
| `wrappers.dfy` | `Wrappers` | `Option` and `Result` |
| `text.dfy` | `Text` | `String(n)` for integers, `padStart`, and a decimal reader used as their inverse |
| `types.dfy` | `Types` | the shared shapes: the logger identity, the message union, extra-field values, and the mutable extra-fields object (`class MessageExtra`) |
| `logger.dfy` | `Logger` | levels, the insertion-ordered handler registry, dispatch, aggregation of the settled outcomes, and `class Logger` |
| `console.dfy` | `Console` | the console handler (pure) |
| `graylog_tls.dfy` | `GraylogTls` | configuration defaults, `_anyToString`, `Date.prototype.toISOString`, and the payload builder. `HandleMessage` is an imperative method: it deletes `id` from the caller's object and loops over the extra fields. It is proved equal to the functional `BuildPayload`. |

Some parts of the system become parameters:
- the machine's host name;
- `randomUUID()`;
- the current time;
- the settled outcome of each handler's promise.

Operations return what they would write to the console, or what they would
hand to the TLS transport, instead of performing the I/O.

## Model

| member | source | states |
|---|---|---|
| Logger.Code | src/logger.ts:6-12 | The codes are 2, 3, 4, 6 and 7; there is no code 5. |
| Logger.LevelOf | src/logger.ts:6-12 | A code names a level exactly when it is one of 2, 3, 4, 6, 7, and that level's code is the code given. |
| Logger.CodeRoundTrip | src/logger.ts:6-12 | Every level is recovered from its code. |
| Logger.Registry.Put | src/logger.ts:24-28 | Assigning `handlers[key]`: the key set gains `key`, which maps to the new handler. Other keys keep their handlers. A new key is listed last and existing keys keep their order. Distinct, consistent keys are preserved. The key `__proto__` only re-parents the plain object, so the registry is unchanged and that handler is never listed or called. |
| Logger.Registry.Delete | src/logger.ts:32 | `delete handlers[key]` removes exactly that key. The others keep their handlers and their relative order. Deleting an absent key changes nothing. |
| Logger.DeleteUndoesPut | src/logger.ts:27-33 | Removing a handler just added under a fresh label restores the registry exactly. |
| Logger.RegistryKey | src/logger.ts:28 | The handler is filed under the label given, unless the label is missing or empty. In that case the key is the class name, "_" and the UUID. |
| Logger.Dispatch | src/logger.ts:39-41 | One call per registered handler, in registry order, each with the logger identity, message, level code and extra object. |
| Logger.RejectedIndices | src/logger.ts:42 | The rejected positions, strictly increasing. Every rejected outcome is among them. |
| Logger.Lines | src/logger.ts:42-52 | As written: the k-th failure line carries the k-th registry key and the reason of the k-th rejection. |
| Logger.IntendedLines | src/logger.ts:43-52 | Each failure line carries the key of the handler that was rejected, and its reason. |
| Logger.Aggregate | src/logger.ts:47-53 | The call throws exactly when some handler was rejected. The error's message is "One or more handlers failed" and its `errors` holds one element, the list of failure lines. |
| Logger.IntendedLinesNameFailures | src/logger.ts:43-52 | Every rejected handler has a line naming its own label and reason. |
| Logger.AggregateNamesEveryFailure | src/logger.ts:50-53 | The thrown error names every rejected handler with its reason. |
| Logger.LinesCorrectIffPrefix | src/logger.ts:42-45 | With distinct keys, the code's labels are right exactly when the failures form a prefix of the registry. |
| Logger.MislabelWitness | src/logger.ts:42-45 | If the second of two handlers times out, the code blames the first one. |
| Logger.Logger.constructor | src/logger.ts:18-25 | A new logger has the project name, the operation id, schema version "1" and no handlers. |
| Logger.Logger.AddHandler | src/logger.ts:27-29 | The registry becomes the old one with the handler put under its registry key (no change for the label `__proto__`). |
| Logger.Logger.RemoveHandler | src/logger.ts:31-33 | The registry becomes the old one with the label deleted. |
| Logger.Logger.Log | src/logger.ts:35-54 | Warns "No handlers configured for logger: <project>" exactly when the registry is empty. Dispatches to every handler with the level's code. Completes or throws as `Aggregate` says. |
| Logger.Logger.Debug | src/logger.ts:56 | A log call with code 7. |
| Logger.Logger.Info | src/logger.ts:57 | A log call with code 6. |
| Logger.Logger.Warning | src/logger.ts:58 | A log call with code 4. |
| Logger.Logger.Error | src/logger.ts:59 | A log call with code 3. |
| Logger.Logger.Critical | src/logger.ts:60 | A log call with code 2. |
| Logger.EmptyRegistryCompletes | src/logger.ts:36-53 | With no handlers, nothing is called and the log call completes. |
| Console.StreamSharing | src/handlers/console.ts:4-10 | Two levels share a console stream exactly when they are equal or both are Error/Critical. |
| Console.LevelNamesDistinct | src/handlers/console.ts:12-18 | Every level has its own name. |
| Console.DateStringRoundTrip | src/handlers/console.ts:20-29 | The date string of a valid date reads back to the same year, month, day, hour, minute and second. Month and day are one-based and every field but the year is two digits. |
| Console.NewConsoleHandler | src/handlers/console.ts:41-47 | Level Debug and the default formatter, each replaced by a supplied option. |
| Console.HandleMessage | src/handlers/console.ts:49-58 | Throws `Error("Invalid log level: <code>")` for a code that is not a level, before formatting. For a level it throws whatever the configured formatter throws; otherwise the formatter's line goes to that level's stream, with `{}` standing in for absent extra fields. It throws in exactly these two cases. |
| Console.InvalidLevelNamesCode | src/handlers/console.ts:50-51 | The invalid-level error text reads back to the offending code. |
| Console.DefaultLine | src/handlers/console.ts:43 | Without a formatter, the line is "<date string> - <level name> - <message>". |
| Console.ConfiguredLevelIgnored | src/handlers/console.ts:49-58 | The configured level never changes what the handler does: there is no filtering by level. |
| GraylogTls.NewGraylogTLSHandler | src/handlers/graylog-tls.ts:30-38 | Defaults are the machine's host name, host 127.0.0.1, port 12201 and timeout 1000 ms; each is replaced by a supplied option. |
| GraylogTls.FullOptionsOverrideDefaults | src/handlers/graylog-tls.ts:30-38 | A configuration passed in full comes back unchanged, whatever the machine is called. |
| GraylogTls.TimeoutMessageNamesDuration | src/handlers/graylog-tls.ts:64 | The timeout reason is "Timeout (<ms> ms)" and reads back to the configured timeout. |
| GraylogTls.IsoStringRoundTrip | src/handlers/graylog-tls.ts:48 | `toISOString` of a valid date is 24 characters, or 27 with an expanded year, and reads back to the same date and time. |
| GraylogTls.AnyToString | src/handlers/graylog-tls.ts:40-55 | Conversion fails exactly for an invalid Date, with RangeError "Invalid time value". Null gives "null", undefined gives "undefined", and a string is kept as it is. |
| GraylogTls.AnyToStringLibraryCases | src/handlers/graylog-tls.ts:47-53 | An object gives its JSON text, a function its source text, and a boolean "true"/"false"; other scalars give `String(value)`. |
| GraylogTls.DateCoercion | src/handlers/graylog-tls.ts:48 | A valid Date converts to an ISO string that reads back to the same instant. |
| GraylogTls.IntegerCoercion | src/handlers/graylog-tls.ts:52-53 | An integer converts to decimal text that reads back to the same integer. |
| GraylogTls.InvalidFieldErrorNamesKey | src/handlers/graylog-tls.ts:120-123 | The invalid-field error names the offending key right after "Extra field '". |
| GraylogTls.IdentityFields | src/handlers/graylog-tls.ts:97-99 | The payload starts with exactly `_logger_version`, `_operation_id` and `_project_name`, taken from the logger identity. |
| GraylogTls.ShortMessage | src/handlers/graylog-tls.ts:104-109 | A string is the short message as it is. For an Error it is the message, or "Error" when that is empty. |
| GraylogTls.FullMessage | src/handlers/graylog-tls.ts:104-109 | An Error's stack, when it has one; never set for a string. |
| GraylogTls.SetField | src/handlers/graylog-tls.ts:124 | `payload[name] = text` sets that one field and keeps the others, except that the name `__proto__` sets nothing. |
| GraylogTls.PayloadWhenFieldsOk | src/handlers/graylog-tls.ts:90-125 | When every field gets through: version "1.1", the configured host, the level unchanged, the timestamp, the message fields, and the identity fields overlaid by the extra fields (none under `__proto__`). |
| GraylogTls.PayloadFailsIff | src/handlers/graylog-tls.ts:118-125 | Building the payload fails exactly when some extra field has a bad name or an unconvertible value. |
| GraylogTls.FirstBadFieldThrows | src/handlers/graylog-tls.ts:119-124 | The first bad field decides the error. A bad name gives the invalid-format Error naming the key; otherwise the conversion's RangeError. |
| GraylogTls.ExtensionFieldsNoProto | src/handlers/graylog-tls.ts:124 | No extra field ever contributes `__proto__`. |
| GraylogTls.ExtensionFieldsAt | src/handlers/graylog-tls.ts:119-125 | With distinct names, each extra field contributes `_<name>` with its converted value, unless `_<name>` is `__proto__`. |
| GraylogTls.PayloadCarriesField | src/handlers/graylog-tls.ts:119-125 | A successful payload carries each extra field as `_<name>` with its converted value, replacing an identity field of that name. A field named `_proto__` passes the name check but is silently not sent. |
| GraylogTls.PayloadFieldOrigin | src/handlers/graylog-tls.ts:97-125 | A successful payload holds `_<name>` exactly for an identity field or an extra field called `<name>`, `__proto__` excepted. An identity field that no extra field names keeps the logger's value. |
| GraylogTls.NoIdField | src/handlers/graylog-tls.ts:111-125 | Once `id` is deleted, no `_id` field is ever sent. |
| GraylogTls.CopyFields | src/handlers/graylog-tls.ts:118-125 | The field loop returns what the fold `AddFields` gives. Each extra field is copied in order under `_<name>` (`__proto__` dropped); the first bad name or unconvertible value stops the loop with its error. |
| GraylogTls.HandleMessage | src/handlers/graylog-tls.ts:84-126 | The caller's extra object loses exactly `id`. A warning is emitted exactly when `id` was present. The result is the payload, or the error, that `BuildPayload` gives for the remaining fields. |
| Types.ErrorToString | src/handlers/console.ts:43 | `String(error)`: the name and message joined by ": ", or whichever one is non-empty. |
| Types.Without | src/handlers/graylog-tls.ts:115 | Deleting a key leaves no longer a list, holding only entries of the original with a different key. |
| Types.WithoutHas | src/handlers/graylog-tls.ts:115 | Every entry under another key survives `delete`. |
| Types.WithoutKeepsOrder | src/handlers/graylog-tls.ts:115 | Any two surviving entries keep their relative order, so the loop at :119 still sees the fields in the caller's order. |
| Types.WithoutKeys | src/handlers/graylog-tls.ts:111-116 | After deleting `key`, a name is present exactly when it was present before and is not `key`. |
| Types.WithoutDistinct | src/handlers/graylog-tls.ts:115 | Deleting a key keeps the remaining names distinct. |
| Types.WithoutAbsent | src/handlers/graylog-tls.ts:111-116 | Deleting an absent key changes nothing. |
| Types.MessageExtra.constructor | types/types.d.ts:8 | An extra-fields object holds the given distinct entries. |
| Types.MessageExtra.Delete | src/handlers/graylog-tls.ts:115 | The object's entries become the old ones without the key, still distinct. |
| Text.NatToString | src/handlers/console.ts:22-26 | `String(n)`: a non-empty string of digits with no leading zero, of one character exactly when n < 10. |
| Text.IntToString | src/handlers/graylog-tls.ts:52-53 | `String(i)`: it starts with '-' exactly for a negative integer, and is all digits otherwise. |
| Text.PadStart | src/handlers/console.ts:22-26 | `padStart`: the result has the width, or the string's own length if that is larger. It ends with the string, preceded only by fill characters. |
| Text.ParseIntOfIntToString | src/handlers/graylog-tls.ts:52-53 | Decimal rendering of an integer reads back to that integer. |
| Text.ParseNatOfZeroPad | src/handlers/console.ts:22-26 | A zero-padded field reads back to its number. |
| Text.ZeroPadLength | src/handlers/console.ts:22-26 | A number below 10^k, padded to width k, is exactly k characters. |

## Left out

- Writing to the console and the TLS transport (`_send`: connecting, writing, the timeout timer, socket errors) are left out. `Console.HandleMessage` returns the stream and the line. `GraylogTls.HandleMessage` returns the payload instead of its JSON text; only the timeout's reason text is modelled (`GraylogTls.TimeoutMessage`).
- `Logger.Logger.Log`: the handlers run concurrently under `Promise.allSettled`. The model takes each one's settled outcome as a parameter, so it says nothing about interleaving, or about the registry changing while a call is pending.
- `Logger.Logger.Log`: assumes that every handler's promise settles, since it takes one settled outcome per handler. The Graylog handler's `_send` (src/handlers/graylog-tls.ts:57-82) never resolves; it only rejects, on a socket error or the idle timeout (:61-66, :77). So a Graylog handler never yields `Fulfilled`, and while one is registered a log call either throws or never completes, because `await Promise.allSettled` (src/logger.ts:39) waits forever on the pending promise. The model does not capture that non-termination.
- `Logger.Logger.Log` and `Logger.Aggregate` follow the corrected labelling of failures (see Findings). `Logger.Lines` is the code's own labelling.
- The no-op `.filter(status => status)` at src/logger.ts:47-48 is left out: every element it sees is an object, so it removes nothing.
- `randomUUID()`, the machine's `hostname()` and `new Date()` are parameters (`operation_id`, `uuid`, `localHostname`, `now`, `timestamp`).
- The payload timestamp is taken as a given `real`. Its computation from the clock (`getTime() / 1000`) is not modelled.
- `Date` values are given as calendar fields already computed for the relevant time zone (local for the console handler, UTC for `toISOString`). The conversion from a time value to fields is not modelled.
- `Logger.Registry.Put`: follows insertion order for every key. JavaScript lists integer-like keys (such as "1") first, in numeric order; the model does not.
- `GraylogTls.HandleMessage`: the loop visits the object's own fields in insertion order. It does not model enumerable inherited properties seen by `for...in` and `in`, nor the integer-like-keys-first order.
- `GraylogTls.AnyToString`: an object's JSON text (`Obj`), a function's source (`Func`) and the text of other scalars are carried by the value. Cases where `JSON.stringify` throws (cycles, bigints) or returns `undefined` are not modelled. Numbers are modelled only as integers (`Integer`); other numbers and symbols go through `OtherScalar`.
- `Console.NewConsoleHandler`, `GraylogTls.NewGraylogTLSHandler`: an option explicitly set to `undefined` replaces the default under object spread. The model treats it as absent. The other TLS connection options the config may carry are not modelled either.
- The console handler's `formatter` receives the level as a code. A custom formatter is any function of the message, the code, the fields and the date that returns a line or throws an Error. It cannot change the caller's extra object in the model, and a thrown value that is not an Error is not modelled.

## Findings

| source | as written | input that shows it | evidently intended | confidence | as-written member | corrected member |
|---|---|---|---|---|---|---|
| src/logger.ts:42-45 | Rejected outcomes are filtered first and numbered afterwards. The k-th rejection is therefore labelled with the k-th registry key, not with the key of the handler that failed. | Handlers "console" then "graylog"; only "graylog" rejects with "Timeout (1000 ms)". The error reads "[console] Timeout (1000 ms)". | Each failure line names the handler that failed. | not executed | Logger.Lines, Logger.MislabelWitness | Logger.IntendedLines, Logger.IntendedLinesNameFailures, Logger.AggregateNamesEveryFailure |

`Logger.LinesCorrectIffPrefix` states exactly when the two labellings agree: when the failing handlers form a prefix of the registry.

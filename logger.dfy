/**
 * The logger core: severities, the label-to-handler registry, and the step of
 * a log call that fans the event out to every handler and folds the settled
 * outcomes into one aggregate error.
 */
module Logger {

  import opened Wrappers
  import opened Types

  /** The schema version every logger reports in its identity. */
  const LOGGER_VERSION: string := "1"

  /** The severities, syslog-style; there is deliberately no level with code 5. */
  datatype MessageLevel = Critical | Error | Warning | Info | Debug

  /** The numeric code of a level, which handlers receive and GELF carries as `level`. */
  function Code(level: MessageLevel): (c: int)
    ensures 2 <= c <= 7 && c != 5
  {
    match level
    case Critical => 2
    case Error => 3
    case Warning => 4
    case Info => 6
    case Debug => 7
  }

  /** The level a numeric code stands for, if any. */
  function LevelOf(c: int): (r: Option<MessageLevel>)
    ensures r.Some? <==> c in {2, 3, 4, 6, 7}
    ensures r.Some? ==> Code(r.value) == c
  {
    if c == 2 then Some(Critical)
    else if c == 3 then Some(Error)
    else if c == 4 then Some(Warning)
    else if c == 6 then Some(Info)
    else if c == 7 then Some(Debug)
    else None
  }

  /** Codes and levels are in one-to-one correspondence. */
  lemma CodeRoundTrip(level: MessageLevel)
    ensures LevelOf(Code(level)) == Some(level)
  {
  }

  // ---------------------------------------------------------------------------
  // The registry

  function IndexOf(labels: seq<string>, key: string): (i: nat)
    requires key in labels
    ensures i < |labels| && labels[i] == key
    ensures forall j :: 0 <= j < i ==> labels[j] != key
  {
    if labels[0] == key then 0 else 1 + IndexOf(labels[1..], key)
  }

  predicate Distinct(labels: seq<string>) {
    forall i, j :: 0 <= i < j < |labels| ==> labels[i] != labels[j]
  }

  /**
   * The label-to-handler dictionary, with its keys in the order `Object.keys`
   * lists them: the order in which they were first inserted. It never holds
   * `__proto__` as a key of its own.
   */
  datatype Registry = Registry(labels: seq<string>, entries: map<string, Handler>) {

    ghost predicate Valid() {
      && Distinct(labels)
      && (forall l :: l in entries <==> l in labels)
      && PROTO_KEY !in entries
    }

    /**
     * `handlers[key] = h`: a new key goes last, an existing key keeps its place
     * and gets the new handler. The key `__proto__` makes `h` the dictionary's
     * prototype instead, which no key or value listing shows.
     */
    function Put(key: string, h: Handler): (r: Registry)
      requires Valid()
      ensures r.Valid()
      ensures key == PROTO_KEY ==> r == this
      ensures key != PROTO_KEY ==> r.entries.Keys == entries.Keys + {key} && r.entries[key] == h
      ensures forall k :: k in entries && k != key ==> r.entries[k] == entries[k]
      ensures |r.labels| == if key in entries || key == PROTO_KEY then |labels| else |labels| + 1
      ensures r.labels[..|labels|] == labels
    {
      if key == PROTO_KEY then this
      else Registry(if key in entries then labels else labels + [key], entries[key := h])
    }

    /** `delete handlers[key]`: that key goes, the others keep their handlers and their order. */
    function Delete(key: string): (r: Registry)
      requires Valid()
      ensures r.Valid()
      ensures r.entries.Keys == entries.Keys - {key}
      ensures forall k :: k in r.entries ==> r.entries[k] == entries[k]
      ensures key !in entries ==> r == this
      ensures key in entries ==>
        var i := IndexOf(labels, key);
        |r.labels| == |labels| - 1 && labels == r.labels[..i] + [key] + r.labels[i..]
    {
      if key in entries then
        var i := IndexOf(labels, key);
        RemoveAt(labels, i);
        Registry(labels[..i] + labels[i + 1..], entries - {key})
      else
        this
    }
  }

  /** Taking the i-th of distinct labels out keeps the others, distinct and in order. */
  lemma RemoveAt(labels: seq<string>, i: nat)
    requires Distinct(labels) && i < |labels|
    ensures var rest := labels[..i] + labels[i + 1..];
      && Distinct(rest)
      && (forall l :: l in rest <==> l in labels && l != labels[i])
      && labels == rest[..i] + [labels[i]] + rest[i..]
  {
    var rest := labels[..i] + labels[i + 1..];
    assert forall j :: 0 <= j < |rest| ==> rest[j] == if j < i then labels[j] else labels[j + 1];
    forall l | l in labels && l != labels[i] ensures l in rest {
      var j :| 0 <= j < |labels| && labels[j] == l;
      assert rest[if j < i then j else j - 1] == l;
    }
    assert labels == rest[..i] + [labels[i]] + rest[i..];
  }

  /** Removing a label that was just added restores the registry it was added to. */
  lemma DeleteUndoesPut(reg: Registry, key: string, h: Handler)
    requires reg.Valid() && key !in reg.entries
    ensures reg.Put(key, h).Delete(key) == reg
  {
    if key == PROTO_KEY {
      return;
    }
    var p := reg.Put(key, h);
    assert p.labels == reg.labels + [key];
    assert IndexOf(p.labels, key) == |reg.labels|;
    assert p.Delete(key).entries == reg.entries;
  }

  /**
   * The label `addHandler` files a handler under: the label given, unless it is
   * missing or empty, in which case the handler's class name, "_" and a fresh UUID.
   */
  function RegistryKey(handler: Handler, handlerLabel: Option<string>, uuid: string): (key: string)
    ensures handlerLabel.Some? && handlerLabel.value != "" ==> key == handlerLabel.value
    ensures handlerLabel.None? || handlerLabel.value == "" ==> key == handler.className + "_" + uuid
  {
    match handlerLabel
    case Some(l) => if l != "" then l else handler.className + "_" + uuid
    case None => handler.className + "_" + uuid
  }

  // ---------------------------------------------------------------------------
  // Dispatch and aggregation

  /** One call of a handler's `message` made by a log call. */
  datatype HandlerCall = HandlerCall(handler: Handler, identity: LoggerConfig, message: Message, level: int, extra: MessageExtra?)

  /** The calls a log call makes: one per registered handler, in registry order, all with the same arguments. */
  function Dispatch(reg: Registry, identity: LoggerConfig, message: Message, level: int, extra: MessageExtra?): (calls: seq<HandlerCall>)
    requires reg.Valid()
    ensures |calls| == |reg.labels|
    ensures forall i :: 0 <= i < |calls| ==>
      calls[i].handler == reg.entries[reg.labels[i]] && calls[i].identity == identity &&
      calls[i].message == message && calls[i].level == level && calls[i].extra == extra
  {
    seq(|reg.labels|, i requires 0 <= i < |reg.labels| => HandlerCall(reg.entries[reg.labels[i]], identity, message, level, extra))
  }

  /** Why a handler's promise was rejected: a thrown Error, or a plain string. */
  datatype Reason = ErrorReason(error: JsError) | StringReason(text: string)

  /** `${reason}`. */
  function ReasonText(reason: Reason): string {
    match reason
    case ErrorReason(e) => ErrorToString(e)
    case StringReason(s) => s
  }

  /** The settled state of one handler's promise. */
  datatype Settled = Fulfilled | Rejected(reason: Reason)

  /** The positions of the rejected outcomes, in increasing order. */
  function RejectedIndices(outcomes: seq<Settled>): (r: seq<nat>)
    ensures |r| <= |outcomes|
    ensures forall k :: 0 <= k < |r| ==> k <= r[k] < |outcomes| && outcomes[r[k]].Rejected?
    ensures forall k, m :: 0 <= k < m < |r| ==> r[k] < r[m]
    ensures forall i :: 0 <= i < |outcomes| && outcomes[i].Rejected? ==> i in r
  {
    if outcomes == [] then []
    else
      var n := |outcomes| - 1;
      var prior := RejectedIndices(outcomes[..n]);
      assert forall i :: 0 <= i < n ==> outcomes[..n][i] == outcomes[i];
      if outcomes[n].Rejected? then prior + [n] else prior
  }

  lemma NoRejections(outcomes: seq<Settled>)
    ensures |RejectedIndices(outcomes)| == 0 <==> forall i :: 0 <= i < |outcomes| ==> outcomes[i].Fulfilled?
  {
    var idx := RejectedIndices(outcomes);
    if |idx| > 0 {
      assert outcomes[idx[0]].Rejected?;
    }
  }

  /** The error a log call throws when some handler failed. */
  datatype AggregateError = AggregateError(errors: seq<seq<string>>, message: string)

  const AGGREGATE_MESSAGE: string := "One or more handlers failed"

  /** The text that labels a failure: "[label] reason". */
  function FailureLine(key: string, reason: Reason): string {
    "[" + key + "] " + ReasonText(reason)
  }

  /**
   * The failure lines as the code builds them: the rejected outcomes are
   * filtered first and only then numbered, so the k-th rejection is labelled
   * with the k-th registry key, whichever handler it came from.
   */
  function Lines(labels: seq<string>, outcomes: seq<Settled>): (lines: seq<string>)
    requires |outcomes| <= |labels|
    ensures |lines| == |RejectedIndices(outcomes)|
    ensures forall k :: 0 <= k < |lines| ==>
      lines[k] == FailureLine(labels[k], outcomes[RejectedIndices(outcomes)[k]].reason)
  {
    var idx := RejectedIndices(outcomes);
    seq(|idx|, k requires 0 <= k < |idx| => FailureLine(labels[k], outcomes[idx[k]].reason))
  }


  /**
   * The failure lines as evidently intended: each rejection labelled with the
   * key of the handler that was rejected.
   */
  function IntendedLines(labels: seq<string>, outcomes: seq<Settled>): (lines: seq<string>)
    requires |outcomes| <= |labels|
    ensures |lines| == |RejectedIndices(outcomes)|
    ensures forall k :: 0 <= k < |lines| ==>
      var i := RejectedIndices(outcomes)[k];
      lines[k] == FailureLine(labels[i], outcomes[i].reason)
  {
    var idx := RejectedIndices(outcomes);
    seq(|idx|, k requires 0 <= k < |idx| => FailureLine(labels[idx[k]], outcomes[idx[k]].reason))
  }

  /** Under the intended labelling every rejected handler has its own line, under its own label. */
  lemma IntendedLinesNameFailures(labels: seq<string>, outcomes: seq<Settled>, i: nat)
    requires |outcomes| == |labels| && i < |outcomes| && outcomes[i].Rejected?
    ensures exists k :: (0 <= k < |IntendedLines(labels, outcomes)| &&
                         IntendedLines(labels, outcomes)[k] == FailureLine(labels[i], outcomes[i].reason))
  {
    var idx := RejectedIndices(outcomes);
    var lines := IntendedLines(labels, outcomes);
    var k :| 0 <= k < |idx| && idx[k] == i;
    assert lines[k] == FailureLine(labels[i], outcomes[i].reason);
  }

  /**
   * The end of a log call: it throws exactly when some outcome was rejected,
   * with an AggregateError whose `errors` array holds ONE element, the array of
   * failure lines (the code wraps the mapped lines in a further array). The
   * lines label each rejection with the key of the handler that was rejected
   * (see `Lines` for how the code labels them).
   */
  function Aggregate(labels: seq<string>, outcomes: seq<Settled>): (r: Result<(), AggregateError>)
    requires |outcomes| <= |labels|
    ensures r.Err? <==> exists i :: 0 <= i < |outcomes| && outcomes[i].Rejected?
    ensures r.Err? ==> r.error.message == AGGREGATE_MESSAGE && r.error.errors == [IntendedLines(labels, outcomes)]
  {
    var lines := IntendedLines(labels, outcomes);
    NoRejections(outcomes);
    if |lines| > 0 then Err(AggregateError([lines], AGGREGATE_MESSAGE)) else Ok(())
  }

  /** Every rejected handler is named, with its reason, in the error a log call throws. */
  lemma AggregateNamesEveryFailure(labels: seq<string>, outcomes: seq<Settled>, i: nat)
    requires |outcomes| == |labels| && i < |outcomes| && outcomes[i].Rejected?
    ensures var r := Aggregate(labels, outcomes);
      r.Err? && |r.error.errors| == 1 && FailureLine(labels[i], outcomes[i].reason) in r.error.errors[0]
  {
    IntendedLinesNameFailures(labels, outcomes, i);
  }

  /** Failures form a prefix of the registry: no rejected handler follows a fulfilled one. */
  predicate FailuresFormPrefix(outcomes: seq<Settled>) {
    forall i, j :: 0 <= i < j < |outcomes| && outcomes[j].Rejected? ==> outcomes[i].Rejected?
  }

  lemma {:induction false} PrefixIndices(outcomes: seq<Settled>, k: nat)
    requires FailuresFormPrefix(outcomes) && k < |RejectedIndices(outcomes)|
    ensures forall m :: 0 <= m <= k ==> RejectedIndices(outcomes)[m] == m
  {
    var idx := RejectedIndices(outcomes);
    if k > 0 {
      PrefixIndices(outcomes, k - 1);
    }
    if idx[k] != k {
      assert outcomes[k].Rejected?;
      var p :| 0 <= p < |idx| && idx[p] == k;
      assert p < k || p > k;
    }
  }

  /** Two failure lines with the same reason are equal only when their labels are. */
  lemma FailureLineInjective(a: string, b: string, reason: Reason)
    requires FailureLine(a, reason) == FailureLine(b, reason)
    ensures a == b
  {
    var s := FailureLine(a, reason);
    assert |a| == |b|;
    assert a == s[1..1 + |a|];
    assert b == s[1..1 + |b|];
  }

  /**
   * The labels the code prints are those of the failing handlers exactly when
   * the failures form a prefix of the registry (keys being distinct).
   */
  lemma LinesCorrectIffPrefix(labels: seq<string>, outcomes: seq<Settled>)
    requires |outcomes| == |labels| && Distinct(labels)
    ensures Lines(labels, outcomes) == IntendedLines(labels, outcomes) <==> FailuresFormPrefix(outcomes)
  {
    var idx := RejectedIndices(outcomes);
    var written, intended := Lines(labels, outcomes), IntendedLines(labels, outcomes);
    if FailuresFormPrefix(outcomes) {
      if |idx| > 0 {
        PrefixIndices(outcomes, |idx| - 1);
      }
      assert forall k :: 0 <= k < |idx| ==> written[k] == intended[k];
    }
    if written == intended {
      forall k | 0 <= k < |idx|
        ensures idx[k] == k
      {
        assert written[k] == intended[k];
        FailureLineInjective(labels[k], labels[idx[k]], outcomes[idx[k]].reason);
      }
      forall i, j | 0 <= i < j < |outcomes| && outcomes[j].Rejected?
        ensures outcomes[i].Rejected?
      {
        var p :| 0 <= p < |idx| && idx[p] == j;
        assert idx[i] == i;
      }
    }
  }

  lemma SecondOfTwoRejected(reason: Reason)
    ensures RejectedIndices([Fulfilled, Rejected(reason)]) == [1]
  {
    var outcomes := [Fulfilled, Rejected(reason)];
    assert outcomes[..1] == [Fulfilled] && outcomes[..1][..0] == [];
    assert RejectedIndices(outcomes[..1]) == [];
  }

  lemma TimeoutLines()
    ensures FailureLine("console", StringReason("Timeout (1000 ms)")) == "[console] Timeout (1000 ms)"
    ensures FailureLine("graylog", StringReason("Timeout (1000 ms)")) == "[graylog] Timeout (1000 ms)"
  {
  }

  /** With the second of two handlers failing, the code names the first one. */
  lemma MislabelWitness()
    ensures
      var labels := ["console", "graylog"];
      var outcomes := [Fulfilled, Rejected(StringReason("Timeout (1000 ms)"))];
      && Lines(labels, outcomes) == ["[console] Timeout (1000 ms)"]
      && IntendedLines(labels, outcomes) == ["[graylog] Timeout (1000 ms)"]
  {
    var labels := ["console", "graylog"];
    var reason := StringReason("Timeout (1000 ms)");
    var outcomes := [Fulfilled, Rejected(reason)];
    SecondOfTwoRejected(reason);
    TimeoutLines();
    var written, intended := Lines(labels, outcomes), IntendedLines(labels, outcomes);
    assert |written| == 1 && written[0] == FailureLine("console", reason);
    assert |intended| == 1 && intended[0] == FailureLine("graylog", reason);
  }

  /** The warning a log call emits when no handler is registered. */
  function NoHandlersWarning(identity: LoggerConfig): string {
    "No handlers configured for logger: " + identity.project_name
  }

  // ---------------------------------------------------------------------------
  // The logger object

  class Logger {
    const config: LoggerConfig
    var handlers: Registry

    ghost predicate Valid()
      reads this
    {
      handlers.Valid()
    }

    /** A logger for a project: a fresh operation id, the fixed schema version, no handlers. */
    constructor (project_name: string, operation_id: string)
      ensures Valid()
      ensures config == LoggerConfig(project_name, operation_id, LOGGER_VERSION)
      ensures handlers.labels == [] && handlers.entries == map[]
    {
      config := LoggerConfig(project_name, operation_id, LOGGER_VERSION);
      handlers := Registry([], map[]);
    }

    /** `addHandler(handler, label?)`; `uuid` is the UUID a generated label would use. */
    method AddHandler(handler: Handler, handlerLabel: Option<string>, uuid: string)
      requires Valid()
      modifies this
      ensures Valid()
      ensures handlers == old(handlers).Put(RegistryKey(handler, handlerLabel, uuid), handler)
    {
      handlers := handlers.Put(RegistryKey(handler, handlerLabel, uuid), handler);
    }

    /** `removeHandler(label)`. */
    method RemoveHandler(handlerLabel: string)
      requires Valid()
      modifies this
      ensures Valid()
      ensures handlers == old(handlers).Delete(handlerLabel)
    {
      handlers := handlers.Delete(handlerLabel);
    }

    /**
     * `_log`: `outcomes` are what the handlers' promises settled to, one per
     * call in `calls`. Returns the warning emitted, the calls made, and whether
     * the log call completes or throws.
     */
    method Log(message: Message, level: MessageLevel, extra: MessageExtra?, outcomes: seq<Settled>)
      returns (warning: Option<string>, calls: seq<HandlerCall>, result: Result<(), AggregateError>)
      requires Valid() && |outcomes| == |handlers.labels|
      ensures warning == if handlers.labels == [] then Some(NoHandlersWarning(config)) else None
      ensures calls == Dispatch(handlers, config, message, Code(level), extra)
      ensures result == Aggregate(handlers.labels, outcomes)
    {
      warning := if |handlers.labels| == 0 then Some(NoHandlersWarning(config)) else None;
      calls := Dispatch(handlers, config, message, Code(level), extra);
      result := Aggregate(handlers.labels, outcomes);
    }

    method Debug(message: Message, extra: MessageExtra?, outcomes: seq<Settled>)
      returns (warning: Option<string>, calls: seq<HandlerCall>, result: Result<(), AggregateError>)
      requires Valid() && |outcomes| == |handlers.labels|
      ensures warning == if handlers.labels == [] then Some(NoHandlersWarning(config)) else None
      ensures calls == Dispatch(handlers, config, message, 7, extra)
      ensures result == Aggregate(handlers.labels, outcomes)
    {
      warning, calls, result := Log(message, MessageLevel.Debug, extra, outcomes);
    }

    method Info(message: Message, extra: MessageExtra?, outcomes: seq<Settled>)
      returns (warning: Option<string>, calls: seq<HandlerCall>, result: Result<(), AggregateError>)
      requires Valid() && |outcomes| == |handlers.labels|
      ensures warning == if handlers.labels == [] then Some(NoHandlersWarning(config)) else None
      ensures calls == Dispatch(handlers, config, message, 6, extra)
      ensures result == Aggregate(handlers.labels, outcomes)
    {
      warning, calls, result := Log(message, MessageLevel.Info, extra, outcomes);
    }

    method Warning(message: Message, extra: MessageExtra?, outcomes: seq<Settled>)
      returns (warning: Option<string>, calls: seq<HandlerCall>, result: Result<(), AggregateError>)
      requires Valid() && |outcomes| == |handlers.labels|
      ensures warning == if handlers.labels == [] then Some(NoHandlersWarning(config)) else None
      ensures calls == Dispatch(handlers, config, message, 4, extra)
      ensures result == Aggregate(handlers.labels, outcomes)
    {
      warning, calls, result := Log(message, MessageLevel.Warning, extra, outcomes);
    }

    method Error(message: Message, extra: MessageExtra?, outcomes: seq<Settled>)
      returns (warning: Option<string>, calls: seq<HandlerCall>, result: Result<(), AggregateError>)
      requires Valid() && |outcomes| == |handlers.labels|
      ensures warning == if handlers.labels == [] then Some(NoHandlersWarning(config)) else None
      ensures calls == Dispatch(handlers, config, message, 3, extra)
      ensures result == Aggregate(handlers.labels, outcomes)
    {
      warning, calls, result := Log(message, MessageLevel.Error, extra, outcomes);
    }

    method Critical(message: Message, extra: MessageExtra?, outcomes: seq<Settled>)
      returns (warning: Option<string>, calls: seq<HandlerCall>, result: Result<(), AggregateError>)
      requires Valid() && |outcomes| == |handlers.labels|
      ensures warning == if handlers.labels == [] then Some(NoHandlersWarning(config)) else None
      ensures calls == Dispatch(handlers, config, message, 2, extra)
      ensures result == Aggregate(handlers.labels, outcomes)
    {
      warning, calls, result := Log(message, MessageLevel.Critical, extra, outcomes);
    }
  }

  /** With no handler registered, a log call calls no handler and completes (its warning is stated by `Logger.Log`). */
  lemma EmptyRegistryCompletes(identity: LoggerConfig, message: Message, level: int, extra: MessageExtra?)
    ensures Dispatch(Registry([], map[]), identity, message, level, extra) == []
    ensures Aggregate([], []) == Ok(())
  {
  }
}

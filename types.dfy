/**
 * The shapes every part of the logger shares: the identity a logger hands to
 * its handlers, the message union, the values a caller may attach as extra
 * fields, and the mutable extra-fields object itself.
 */
module Types {

  import opened Wrappers

  /** The logger's identity, passed to every handler on every call. */
  datatype LoggerConfig = LoggerConfig(project_name: string, operation_id: string, logger_version: string)

  /** A JavaScript `Error`: its `name` ("Error", "RangeError", ...) and its `message`. */
  datatype JsError = JsError(name: string, message: string)

  /**
   * `String(e)` for an Error (Error.prototype.toString, section 20.5.3.4 of
   * ECMA-262): the name, the message, or both joined by ": ".
   */
  function ErrorToString(e: JsError): (s: string)
    ensures e.name == "" ==> s == e.message
    ensures e.message == "" ==> s == e.name
    ensures e.name != "" && e.message != "" ==> s == e.name + ": " + e.message
  {
    if e.name == "" then e.message
    else if e.message == "" then e.name
    else e.name + ": " + e.message
  }

  /** A log message: a plain string, or an Error together with its stack trace if it has one. */
  datatype Message = Plain(text: string) | Fault(error: JsError, stack: Option<string>)

  /** Calendar fields of a `Date` in one time zone; `month` is zero-based as `getMonth()` returns it. */
  datatype DateTime = DateTime(year: int, month: nat, day: nat, hours: nat, minutes: nat, seconds: nat, millis: nat)

  /** The ranges a `Date`'s fields always fall in (its time value is within 8.64e15 ms of the epoch). */
  predicate WellFormed(d: DateTime) {
    && -271821 <= d.year <= 275760
    && d.month < 12 && 1 <= d.day <= 31
    && d.hours < 24 && d.minutes < 60 && d.seconds < 60 && d.millis < 1000
  }

  /**
   * A value attached to a log call as an extra field, as far as its conversion
   * to text depends on it. `Date(None)` is a Date whose time value is NaN;
   * `Obj` carries what `JSON.stringify` produced for an object or array, `Func`
   * what a function's `toString()` produced, and `OtherScalar` what `String()`
   * produced for a number that is not an integer, or for a symbol. `Integer`
   * is a bigint, or a number whose value is that safe integer.
   */
  datatype Value =
    | Null
    | Undefined
    | Str(s: string)
    | Date(time: Option<DateTime>)
    | Obj(json: string)
    | Func(source: string)
    | Bool(b: bool)
    | Integer(i: int)
    | OtherScalar(text: string)

  /**
   * The one property name an assignment to a plain object does not create: it
   * reaches the accessor inherited from `Object.prototype`, which re-parents the
   * object when given an object and ignores anything else.
   */
  const PROTO_KEY := "__proto__"

  /** The own properties of an extra-fields object, in enumeration order. */
  type Entries = seq<(string, Value)>

  predicate DistinctKeys(es: Entries) {
    forall i, j :: 0 <= i < j < |es| ==> es[i].0 != es[j].0
  }

  /** `key in extra`. */
  predicate HasKey(es: Entries, key: string) {
    exists i :: 0 <= i < |es| && es[i].0 == key
  }

  /** The properties left after `delete extra[key]`: the others, in their order. */
  function Without(es: Entries, key: string): (r: Entries)
    ensures |r| <= |es|
    ensures forall e :: e in r ==> e in es && e.0 != key
  {
    if es == [] then []
    else if es[0].0 == key then Without(es[1..], key)
    else [es[0]] + Without(es[1..], key)
  }

  lemma HasKeyCons(es: Entries, key: string)
    requires es != []
    ensures HasKey(es, key) <==> es[0].0 == key || HasKey(es[1..], key)
  {
    if HasKey(es, key) && es[0].0 != key {
      var i :| 0 <= i < |es| && es[i].0 == key;
      assert es[1..][i - 1].0 == key;
    }
    if HasKey(es[1..], key) {
      var i :| 0 <= i < |es[1..]| && es[1..][i].0 == key;
      assert es[i + 1].0 == key;
    }
  }

  /** Deleting a key removes that key and keeps every other one. */
  lemma {:induction false} WithoutKeys(es: Entries, key: string, k: string)
    ensures HasKey(Without(es, key), k) <==> k != key && HasKey(es, k)
  {
    if es != [] {
      WithoutKeys(es[1..], key, k);
      HasKeyCons(es, k);
      if es[0].0 != key {
        HasKeyCons(Without(es, key), k);
      }
    }
  }

  /** Deleting a key keeps the keys distinct. */
  lemma {:induction false} WithoutDistinct(es: Entries, key: string)
    requires DistinctKeys(es)
    ensures DistinctKeys(Without(es, key))
  {
    if es != [] {
      var r := Without(es, key);
      assert DistinctKeys(es[1..]) by {
        forall i, j | 0 <= i < j < |es[1..]| ensures es[1..][i].0 != es[1..][j].0 {
          assert es[1..][i] == es[i + 1] && es[1..][j] == es[j + 1];
        }
      }
      WithoutDistinct(es[1..], key);
      if es[0].0 != key {
        var rest := Without(es[1..], key);
        assert !HasKey(es[1..], es[0].0) by {
          forall i | 0 <= i < |es[1..]| ensures es[1..][i].0 != es[0].0 {
            assert es[1..][i] == es[i + 1];
          }
        }
        WithoutKeys(es[1..], key, es[0].0);
        forall i, j | 0 <= i < j < |r| ensures r[i].0 != r[j].0 {
          assert r[j] == rest[j - 1];
          if i > 0 {
            assert r[i] == rest[i - 1];
          }
        }
      }
    }
  }

  /** Every property under another key survives the deletion. */
  lemma {:induction false} WithoutHas(es: Entries, key: string, i: nat)
    requires i < |es| && es[i].0 != key
    ensures es[i] in Without(es, key)
  {
    if i > 0 {
      assert es[1..][i - 1] == es[i];
      WithoutHas(es[1..], key, i - 1);
    }
  }

  /** Two surviving properties keep their relative order: `a` and `b` are their new positions. */
  lemma {:induction false} WithoutKeepsOrder(es: Entries, key: string, i: nat, j: nat) returns (a: nat, b: nat)
    requires i < j < |es| && es[i].0 != key && es[j].0 != key
    ensures a < b < |Without(es, key)|
    ensures Without(es, key)[a] == es[i] && Without(es, key)[b] == es[j]
  {
    var r := Without(es, key);
    var rest := Without(es[1..], key);
    assert es[1..][j - 1] == es[j];
    if i == 0 {
      WithoutHas(es[1..], key, j - 1);
      var k :| 0 <= k < |rest| && rest[k] == es[j];
      assert r == [es[0]] + rest;
      a, b := 0, k + 1;
    } else {
      assert es[1..][i - 1] == es[i];
      a, b := WithoutKeepsOrder(es[1..], key, i - 1, j - 1);
      if es[0].0 != key {
        assert r == [es[0]] + rest;
        a, b := a + 1, b + 1;
      }
    }
  }

  /** Deleting an absent key changes nothing. */
  lemma {:induction false} WithoutAbsent(es: Entries, key: string)
    requires !HasKey(es, key)
    ensures Without(es, key) == es
  {
    if es != [] {
      HasKeyCons(es, key);
      WithoutAbsent(es[1..], key);
    }
  }

  /**
   * A handler registered with a logger. The logger only needs the name of the
   * handler's class (for generated labels); `instance` tells objects apart.
   */
  datatype Handler = Handler(className: string, instance: nat)

  /** The caller's extra-fields object, which a handler may change in place. */
  class MessageExtra {
    var entries: Entries

    ghost predicate Valid()
      reads this
    {
      DistinctKeys(entries)
    }

    constructor (entries: Entries)
      requires DistinctKeys(entries)
      ensures Valid() && this.entries == entries
    {
      this.entries := entries;
    }

    predicate Has(key: string)
      reads this
    {
      HasKey(entries, key)
    }

    /** `delete extra[key]`. */
    method Delete(key: string)
      requires Valid()
      modifies this
      ensures Valid() && entries == Without(old(entries), key)
    {
      WithoutDistinct(entries, key);
      entries := Without(entries, key);
    }
  }
}

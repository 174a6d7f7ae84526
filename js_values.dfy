/** Values of the JavaScript runtime that the two commands inspect: truthiness, the text a
    template literal produces, Array.prototype.join, and the leveled log lines the commands
    emit through Command.log, Command.info, Command.warn and Command.error. */
module JsValues {

  datatype Option<+T> = None | Some(value: T)

  /** An Error object, as passed to a promise's reject. */
  datatype Failure = Failure(message: string)

  /** The rejection both commands give when no source precedes the destination. */
  const NoDestination := Failure("Destination path must be specified")

  /** The JavaScript values the commands read from options, configuration and backend
      replies. Numbers are integers here; floating point is not modelled. */
  datatype Value = Undefined | Null | Bool(b: bool) | Num(n: int) | Str(s: string) | Object

  /** ToBoolean: what `if (v)` and `v ? a : b` test. */
  predicate Truthy(v: Value)
  {
    match v
    case Undefined => false
    case Null => false
    case Bool(b) => b
    case Num(n) => n != 0
    case Str(s) => s != ""
    case Object => true
  }

  /** The strict comparison `v === true`. */
  predicate IsTrue(v: Value)
  {
    v == Bool(true)
  }

  function DigitChar(d: nat): (c: char)
    requires d < 10
    ensures '0' <= c <= '9' && c as int - '0' as int == d
  {
    ('0' as int + d) as char
  }

  /** Decimal digits of a natural number, most significant first, without leading zeros. */
  function NatToString(n: nat): (s: string)
    ensures |s| > 0
    ensures forall i :: 0 <= i < |s| ==> '0' <= s[i] <= '9'
    ensures n > 0 ==> s[0] != '0'
    decreases n
  {
    if n < 10 then [DigitChar(n)] else NatToString(n / 10) + [DigitChar(n % 10)]
  }

  /** The number a string of decimal digits denotes. */
  function DigitsValue(s: string): nat
    requires forall i :: 0 <= i < |s| ==> '0' <= s[i] <= '9'
    decreases |s|
  {
    if s == [] then 0
    else DigitsValue(s[..|s| - 1]) * 10 + (s[|s| - 1] as int - '0' as int)
  }

  /** The rendering of a number denotes that number. */
  lemma {:induction false} NatToStringValue(n: nat)
    ensures DigitsValue(NatToString(n)) == n
    decreases n
  {
    var s := NatToString(n);
    if n >= 10 {
      NatToStringValue(n / 10);
      assert s[..|s| - 1] == NatToString(n / 10);
    } else {
      assert s[..|s| - 1] == [];
    }
  }

  function IntToString(i: int): string
  {
    if i < 0 then "-" + NatToString(-i) else NatToString(i)
  }

  /** The text `${v}` yields inside a template literal. */
  function ToText(v: Value): string
  {
    match v
    case Undefined => "undefined"
    case Null => "null"
    case Bool(b) => if b then "true" else "false"
    case Num(n) => IntToString(n)
    case Str(s) => s
    case Object => "[object Object]"
  }

  /** Array.prototype.join over strings. */
  function Join(parts: seq<string>, sep: string): (r: string)
    ensures |parts| == 1 ==> r == parts[0]
    ensures |parts| >= 2 ==> parts[0] + sep <= r
    decreases |parts|
  {
    if |parts| == 0 then ""
    else if |parts| == 1 then parts[0]
    else Join(parts[..|parts| - 1], sep) + sep + parts[|parts| - 1]
  }

  /** Levels of the log: `Log` is Command.log's verbose channel, the others are
      Command.info, Command.warn and Command.error. */
  datatype Level = Log | Info | Warn | Error

  datatype LogLine = LogLine(level: Level, message: string)

  /** The lines of a log that carry a classification (info, warn or error). */
  function Leveled(log: seq<LogLine>): (r: seq<LogLine>)
    ensures |r| <= |log|
    ensures forall i :: 0 <= i < |r| ==> r[i].level != Log
  {
    if log == [] then []
    else (if log[0].level == Log then [] else [log[0]]) + Leveled(log[1..])
  }

  lemma {:induction false} LeveledAppend(a: seq<LogLine>, b: seq<LogLine>)
    ensures Leveled(a + b) == Leveled(a) + Leveled(b)
    decreases |a|
  {
    if a == [] {
      assert a + b == b;
    } else {
      assert (a + b)[1..] == a[1..] + b;
      LeveledAppend(a[1..], b);
    }
  }
}

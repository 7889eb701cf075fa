/**
 * Severity levels of logc (the `log_level` enumeration) and the
 * level-name table used by the renderers and by `log_level_string`.
 */
module Levels {
  import opened Wrappers

  /** The six severities, in the order of the C enumerators (TRACE is 0). */
  datatype Level = Trace | Debug | Info | Warn | Error | Fatal {

    /** The value of the C enumerator. */
    function Ordinal(): (n: nat)
      ensures n < LevelCount
    {
      match this
      case Trace => 0
      case Debug => 1
      case Info => 2
      case Warn => 3
      case Error => 4
      case Fatal => 5
    }
  }

  const LevelCount: nat := 6

  /** The enumerator with a given value (the inverse of `Ordinal`). */
  function FromOrdinal(n: nat): (l: Level)
    requires n < LevelCount
    ensures l.Ordinal() == n
  {
    if n == 0 then Trace
    else if n == 1 then Debug
    else if n == 2 then Info
    else if n == 3 then Warn
    else if n == 4 then Error
    else Fatal
  }

  /** `a >= b` on the enumerators, the comparison every filter uses. */
  predicate AtLeast(a: Level, b: Level) {
    a.Ordinal() >= b.Ordinal()
  }

  lemma FromOrdinalRoundTrip(l: Level)
    ensures FromOrdinal(l.Ordinal()) == l
  {
  }

  /** Comparing by ordinal is a total order on severities. */
  lemma AtLeastIsTotalOrder(a: Level, b: Level, c: Level)
    ensures AtLeast(a, a)
    ensures AtLeast(a, b) && AtLeast(b, a) ==> a == b
    ensures AtLeast(a, b) && AtLeast(b, c) ==> AtLeast(a, c)
    ensures AtLeast(a, b) || AtLeast(b, a)
  {
    if AtLeast(a, b) && AtLeast(b, a) {
      FromOrdinalRoundTrip(a);
      FromOrdinalRoundTrip(b);
    }
  }

  /** `level_strings[level]`: the upper-case name of a level. */
  function LevelString(l: Level): (s: string)
    ensures 4 <= |s| <= 5
    ensures forall k :: 0 <= k < |s| ==> 'A' <= s[k] <= 'Z'
  {
    match l
    case Trace => "TRACE"
    case Debug => "DEBUG"
    case Info => "INFO"
    case Warn => "WARN"
    case Error => "ERROR"
    case Fatal => "FATAL"
  }

  /** The level whose name is `s`, if any: the inverse of `LevelString`. */
  function ParseLevel(s: string): (r: Option<Level>)
  {
    if s == "TRACE" then Some(Trace)
    else if s == "DEBUG" then Some(Debug)
    else if s == "INFO" then Some(Info)
    else if s == "WARN" then Some(Warn)
    else if s == "ERROR" then Some(Error)
    else if s == "FATAL" then Some(Fatal)
    else None
  }

  /** Each level has its own name, and a name determines its level. */
  lemma LevelStringRoundTrip(l: Level, s: string)
    ensures ParseLevel(LevelString(l)) == Some(l)
    ensures ParseLevel(s) == Some(l) <==> s == LevelString(l)
  {
  }
}

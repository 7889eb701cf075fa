/**
 * `logc_version(major, minor, patch)`: the `"%d.%d.%d"` rendering of the
 * version triple.  The C function formats into a 20-byte stack buffer and
 * copies that buffer to the heap; `VersionString` is the string it is meant to
 * produce, and `LogcVersionAsWritten` records when the fixed buffer is too
 * small for it.
 */
module Version {
  import opened Wrappers

  /** A C `int`. */
  newtype Int32 = x: int | -0x8000_0000 <= x < 0x8000_0000

  /** LOGC_VERSION_MAJOR, LOGC_VERSION_MINOR, LOGC_VERSION_PATCH. */
  const VersionMajor: Int32 := 0
  const VersionMinor: Int32 := 1
  const VersionPatch: Int32 := 0

  /** The size of the `version` buffer, terminating NUL included. */
  const VersionBufferSize: nat := 20

  predicate IsDigit(c: char) {
    '0' <= c <= '9'
  }

  predicate AllDigits(s: string) {
    forall k :: 0 <= k < |s| ==> IsDigit(s[k])
  }

  function DigitChar(d: nat): char
    requires d < 10
  {
    ('0' as int + d) as char
  }

  /** The decimal digits of `n`, most significant first, without leading zeros. */
  function NatDigits(n: nat): (s: string)
    ensures 1 <= |s| && AllDigits(s)
    ensures |s| > 1 ==> s[0] != '0'
    decreases n
  {
    if n < 10 then [DigitChar(n)] else NatDigits(n / 10) + [DigitChar(n % 10)]
  }

  /** The number a string of decimal digits denotes. */
  function DigitsValue(s: string): nat
    requires AllDigits(s)
  {
    if s == [] then 0
    else DigitsValue(s[..|s| - 1]) * 10 + (s[|s| - 1] as int - '0' as int)
  }

  lemma {:induction false} NatDigitsRoundTrip(n: nat)
    ensures DigitsValue(NatDigits(n)) == n
    decreases n
  {
    if n >= 10 {
      NatDigitsRoundTrip(n / 10);
      var s := NatDigits(n);
      assert s[..|s| - 1] == NatDigits(n / 10);
    }
  }

  function Pow10(k: nat): (p: nat)
    ensures p >= 1
  {
    if k == 0 then 1 else 10 * Pow10(k - 1)
  }

  /** A number below 10^k has at most k digits. */
  lemma {:induction false} NatDigitsLength(n: nat, k: nat)
    requires 1 <= k && n < Pow10(k)
    ensures |NatDigits(n)| <= k
    decreases k
  {
    if n >= 10 {
      assert k > 1;
      NatDigitsLength(n / 10, k - 1);
    }
  }

  /** `%d`: the decimal rendering of a signed integer. */
  function Decimal(x: int): (s: string)
    ensures 1 <= |s|
    ensures forall k :: 0 <= k < |s| ==> s[k] != '.'
  {
    if x < 0 then "-" + NatDigits(-x) else NatDigits(x)
  }

  /** The integer a `%d` rendering denotes, if the string is one. */
  function ParseDecimal(s: string): Option<int>
  {
    if 2 <= |s| && s[0] == '-' && AllDigits(s[1..]) then Some(-(DigitsValue(s[1..]) as int))
    else if 1 <= |s| && AllDigits(s) then Some(DigitsValue(s))
    else None
  }

  lemma DecimalRoundTrip(x: int)
    ensures ParseDecimal(Decimal(x)) == Some(x)
  {
    if x < 0 {
      var s := Decimal(x);
      assert s[1..] == NatDigits(-x);
      NatDigitsRoundTrip(-x);
    } else {
      NatDigitsRoundTrip(x);
    }
  }

  /** A C `int` never needs more than 11 characters under `%d`. */
  lemma DecimalLength(x: Int32)
    ensures |Decimal(x as int)| <= 11
  {
    assert Pow10(10) == 10000000000;
    if x < 0 {
      NatDigitsLength(-(x as int), 10);
    } else {
      NatDigitsLength(x as int, 10);
    }
  }

  /**
   * The version string `major.minor.patch`, built without a fixed buffer.
   * Any three C `int`s need between 5 and 35 characters.
   */
  function VersionString(major: Int32, minor: Int32, patch: Int32): (s: string)
    ensures 5 <= |s| <= 35
  {
    DecimalLength(major);
    DecimalLength(minor);
    DecimalLength(patch);
    Decimal(major as int) + "." + Decimal(minor as int) + "." + Decimal(patch as int)
  }

  /** The index of the first '.' in `s`, or |s| when there is none. */
  function IndexOfDot(s: string): (i: nat)
    ensures i <= |s|
    ensures forall k :: 0 <= k < i ==> s[k] != '.'
    ensures i < |s| ==> s[i] == '.'
  {
    if s == [] then 0 else if s[0] == '.' then 0 else 1 + IndexOfDot(s[1..])
  }

  lemma {:induction false} IndexOfDotAfter(a: string, b: string)
    requires forall k :: 0 <= k < |a| ==> a[k] != '.'
    ensures IndexOfDot(a + "." + b) == |a|
  {
    if a != [] {
      assert (a + "." + b)[1..] == a[1..] + "." + b;
      IndexOfDotAfter(a[1..], b);
    }
  }

  /** Reads a `major.minor.patch` string back into its three numbers. */
  function ParseVersion(s: string): Option<(int, int, int)>
  {
    var i := IndexOfDot(s);
    if i == |s| then None
    else
      var rest := s[i + 1..];
      var j := IndexOfDot(rest);
      if j == |rest| then None
      else
        match (ParseDecimal(s[..i]), ParseDecimal(rest[..j]), ParseDecimal(rest[j + 1..]))
        case (Some(a), Some(b), Some(c)) => Some((a, b, c))
        case _ => None
  }

  /** The version string determines the triple it was made from. */
  lemma VersionRoundTrip(major: Int32, minor: Int32, patch: Int32)
    ensures ParseVersion(VersionString(major, minor, patch)) == Some((major as int, minor as int, patch as int))
  {
    SplitVersion(Decimal(major as int), Decimal(minor as int), Decimal(patch as int));
    DecimalRoundTrip(major as int);
    DecimalRoundTrip(minor as int);
    DecimalRoundTrip(patch as int);
  }

  /** `ParseVersion` splits at the two dots that join three dot-free parts. */
  lemma SplitVersion(a: string, b: string, c: string)
    requires forall k :: 0 <= k < |a| ==> a[k] != '.'
    requires forall k :: 0 <= k < |b| ==> b[k] != '.'
    ensures ParseVersion(a + "." + b + "." + c)
      == match (ParseDecimal(a), ParseDecimal(b), ParseDecimal(c))
         case (Some(x), Some(y), Some(z)) => Some((x, y, z))
         case _ => None
  {
    var s := a + "." + b + "." + c;
    assert s == a + "." + (b + "." + c);
    IndexOfDotAfter(a, b + "." + c);
    assert s[..|a|] == a;
    var rest := s[|a| + 1..];
    assert rest == b + "." + c;
    IndexOfDotAfter(b, c);
    assert rest[..|b|] == b;
    assert rest[|b| + 1..] == c;
  }

  /** LOGC_VERSION: the released version string. */
  lemma ReleasedVersion()
    ensures VersionString(VersionMajor, VersionMinor, VersionPatch) == "0.1.0"
  {
  }

  /**
   * `logc_version` as written: `sprintf` stores the text and its NUL in a
   * 20-byte buffer.  When they do not fit, `sprintf` writes past the buffer
   * (undefined behaviour), represented here by `None`.
   */
  function LogcVersionAsWritten(major: Int32, minor: Int32, patch: Int32): (r: Option<string>)
    ensures r.Some? <==> |VersionString(major, minor, patch)| + 1 <= VersionBufferSize
    ensures r.Some? ==> r.value == VersionString(major, minor, patch)
    ensures r.Some? ==> ParseVersion(r.value) == Some((major as int, minor as int, patch as int))
  {
    VersionRoundTrip(major, minor, patch);
    var text := VersionString(major, minor, patch);
    if |text| + 1 <= VersionBufferSize then Some(text) else None
  }

  /** Three ten-digit components overflow the 20-byte buffer. */
  lemma VersionBufferOverrun()
    ensures LogcVersionAsWritten(1000000000, 1000000000, 1000000000) == None
  {
    assert |NatDigits(1000000000)| == 10;
  }

  /** Components below 100000 always fit the 20-byte buffer. */
  lemma VersionBufferFits(major: Int32, minor: Int32, patch: Int32)
    requires 0 <= major < 100000 && 0 <= minor < 100000 && 0 <= patch < 100000
    ensures LogcVersionAsWritten(major, minor, patch) == Some(VersionString(major, minor, patch))
  {
    assert Pow10(5) == 100000;
    NatDigitsLength(major as int, 5);
    NatDigitsLength(minor as int, 5);
    NatDigitsLength(patch as int, 5);
  }
}

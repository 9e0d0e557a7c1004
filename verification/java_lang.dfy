/**
 * The few pieces of the Java platform the RPC core leans on, stated exactly:
 * fixed-width integers, exceptions as values, `Integer.toString`,
 * `Integer.parseInt` and `String.split` on a one-character separator.
 */
module JavaLang {
  import opened Wrappers

  /** An unsigned octet as it travels on the wire (`b & 0xFF`). */
  type Byte = x: int | 0 <= x < 256

  /** Java `byte`, `short`, `int` and `long`. */
  type Int8 = x: int | -0x80 <= x < 0x80
  type Int16 = x: int | -0x8000 <= x < 0x8000
  type Int32 = x: int | -0x8000_0000 <= x < 0x8000_0000
  type Int64 = x: int | -0x8000_0000_0000_0000 <= x < 0x8000_0000_0000_0000

  const INT_MAX: int := 0x7fff_ffff
  const LONG_MAX: int := 0x7fff_ffff_ffff_ffff
  const LONG_MIN: int := -0x8000_0000_0000_0000

  /** A Java byte array: its length is an `int`. */
  type JavaBytes = s: seq<Byte> | |s| <= INT_MAX

  /** Two's-complement wrap-around of an exact integer into a `long`. */
  function WrapLong(x: int): (r: Int64)
    ensures LONG_MIN <= x <= LONG_MAX ==> r == x
    ensures (r - x) % 0x1_0000_0000_0000_0000 == 0
  {
    var u := x % 0x1_0000_0000_0000_0000;
    if u <= LONG_MAX then u else u - 0x1_0000_0000_0000_0000
  }

  /** Two's-complement wrap-around of an exact integer into an `int`. */
  function WrapInt(x: int): (r: Int32)
    ensures -0x8000_0000 <= x <= INT_MAX ==> r == x
    ensures (r - x) % 0x1_0000_0000 == 0
  {
    var u := x % 0x1_0000_0000;
    if u <= INT_MAX then u else u - 0x1_0000_0000
  }

  /** One step of Java's 31-based hash: `31 * acc + h` in `int` arithmetic. */
  function HashStep(acc: Int32, h: Int32): Int32
  {
    WrapInt(31 * acc + h)
  }

  /** `String.hashCode()`: the 31-based polynomial over the characters, in `int` arithmetic. */
  function StringHashCode(s: string): (h: Int32)
    ensures s == "" ==> h == 0
    ensures |s| == 1 ==> h == s[0] as int
  {
    if |s| == 0 then 0 else HashStep(StringHashCode(s[..|s| - 1]), s[|s| - 1] as int)
  }

  /** Appending a character multiplies the hash so far by 31 and adds the character's code. */
  lemma StringHashCodeAppend(s: string, c: char)
    ensures StringHashCode(s + [c]) == WrapInt(31 * StringHashCode(s) + c as int)
  {
    assert (s + [c])[..|s|] == s;
  }

  /** `Arrays.hashCode(Object[])` / `Objects.hash(...)` over the element hashes (0 for null). */
  function ArrayHashCode(hashes: seq<Int32>): (h: Int32)
    ensures hashes == [] ==> h == 1
    ensures |hashes| == 1 ==> h == WrapInt(31 + hashes[0] as int)
  {
    if |hashes| == 0 then 1 else HashStep(ArrayHashCode(hashes[..|hashes| - 1]), hashes[|hashes| - 1])
  }

  /** Each further element multiplies the hash so far by 31 and adds the element's hash. */
  lemma ArrayHashCodeAppend(hashes: seq<Int32>, h: Int32)
    ensures ArrayHashCode(hashes + [h]) == WrapInt(31 * ArrayHashCode(hashes) + h)
  {
    assert (hashes + [h])[..|hashes|] == hashes;
  }

  /** A Java list: at most `Integer.MAX_VALUE` elements. */
  type JavaList<T> = s: seq<T> | |s| <= INT_MAX witness []

  /** `AtomicLong.incrementAndGet` on a counter holding `c`. */
  function IncrementLong(c: Int64): (r: Int64)
    ensures c < LONG_MAX ==> r == c + 1
    ensures c == LONG_MAX ==> r == LONG_MIN
  {
    WrapLong(c + 1)
  }

  datatype ExceptionKind =
    | RuntimeException
    | IllegalStateException
    | IllegalArgumentException
    | NullPointerException
    | ArrayIndexOutOfBoundsException
    | NumberFormatException
    | NegativeArraySizeException
    | InterruptedException
    | ExecutionException
    | TimeoutException
    | OtherException(className: string)

  /** A thrown Java exception: its class, `getMessage()` (possibly null) and `getCause()`. */
  datatype Exception = Exception(kind: ExceptionKind, message: Option<string>, cause: Option<Exception>)

  function Throw(kind: ExceptionKind, message: string): Exception
  {
    Exception(kind, Some(message), None)
  }

  /** `"" + s` for a possibly null string: null prints as "null". */
  function StringOf(s: Option<string>): string
  {
    if s.Some? then s.value else "null"
  }

  // ---------------------------------------------------------------------------
  // Decimal digits: Integer.toString and Integer.parseInt

  predicate IsDigit(c: char) { '0' <= c <= '9' }

  function DigitChar(d: nat): (c: char)
    requires d < 10
    ensures IsDigit(c) && c as int - '0' as int == d
  {
    ['0', '1', '2', '3', '4', '5', '6', '7', '8', '9'][d]
  }

  /** `Integer.toString(n)` for a non-negative `n`: no sign, no leading zero. */
  function NatToString(n: nat): (s: string)
    ensures |s| >= 1
    ensures forall i :: 0 <= i < |s| ==> IsDigit(s[i])
    ensures n >= 10 ==> s[0] != '0'
  {
    if n < 10 then [DigitChar(n)] else NatToString(n / 10) + [DigitChar(n % 10)]
  }

  /** `Integer.toString(i)` / `String.valueOf(i)` for any integer. */
  function IntToString(i: int): (s: string)
    ensures |s| >= 1
    ensures i >= 0 ==> s == NatToString(i)
    ensures i < 0 ==> s[0] == '-' && s[1..] == NatToString(-i)
  {
    if i >= 0 then NatToString(i) else "-" + NatToString(-i)
  }

  /** The value of a string of decimal digits. */
  function DigitsValue(s: string): nat
    requires forall i :: 0 <= i < |s| ==> IsDigit(s[i])
  {
    if |s| == 0 then 0
    else
      assert IsDigit(s[|s| - 1]);
      DigitsValue(s[..|s| - 1]) * 10 + (s[|s| - 1] as int - '0' as int)
  }

  lemma {:induction false} DigitsValueOfNatToString(n: nat)
    ensures DigitsValue(NatToString(n)) == n
  {
    var s := NatToString(n);
    if n >= 10 {
      DigitsValueOfNatToString(n / 10);
      assert s[..|s| - 1] == NatToString(n / 10);
    }
  }

  predicate AllDigits(s: string) { forall i :: 0 <= i < |s| ==> IsDigit(s[i]) }

  /**
   * `Integer.parseInt(s)`: an optional sign followed by at least one decimal
   * digit, with a value that fits in an `int`; anything else throws
   * NumberFormatException.
   */
  function ParseInt(s: string): (r: Result<Int32, Exception>)
    ensures r.Success? <==>
      || (|s| >= 1 && AllDigits(s) && DigitsValue(s) <= INT_MAX)
      || (|s| >= 2 && s[0] == '+' && AllDigits(s[1..]) && DigitsValue(s[1..]) <= INT_MAX)
      || (|s| >= 2 && s[0] == '-' && AllDigits(s[1..]) && DigitsValue(s[1..]) <= INT_MAX + 1)
    ensures r.Success? && s[0] == '-' ==> r.value as int == -(DigitsValue(s[1..]) as int)
    ensures r.Success? && s[0] == '+' ==> r.value == DigitsValue(s[1..])
    ensures r.Success? && s[0] != '-' && s[0] != '+' ==> r.value == DigitsValue(s)
    ensures r.Failure? ==> r.error == Throw(NumberFormatException, "For input string: \"" + s + "\"")
  {
    var neg := |s| >= 1 && s[0] == '-';
    var digits := if |s| >= 1 && (s[0] == '-' || s[0] == '+') then s[1..] else s;
    if |digits| == 0 || exists i :: 0 <= i < |digits| && !IsDigit(digits[i]) then
      Failure(Throw(NumberFormatException, "For input string: \"" + s + "\""))
    else
      var v: int := if neg then -(DigitsValue(digits) as int) else DigitsValue(digits);
      if -0x8000_0000 <= v <= INT_MAX then Success(v)
      else Failure(Throw(NumberFormatException, "For input string: \"" + s + "\""))
  }

  lemma ParseIntOfNatToString(n: nat)
    requires n <= INT_MAX
    ensures ParseInt(NatToString(n)) == Success(n)
  {
    DigitsValueOfNatToString(n);
  }

  /** `Integer.parseInt(Integer.toString(i)) == i` for every `int`, `Integer.MIN_VALUE` included. */
  lemma ParseIntOfIntToString(i: Int32)
    ensures ParseInt(IntToString(i)) == Success(i)
  {
    if i >= 0 {
      ParseIntOfNatToString(i);
    } else {
      DigitsValueOfNatToString(-(i as int));
    }
  }

  // ---------------------------------------------------------------------------
  // String.split on a single separator character

  /** Every piece of `s` between occurrences of `sep`, empty pieces included. */
  function SplitAll(s: string, sep: char): (parts: seq<string>)
    ensures |parts| >= 1
    ensures forall i, j :: 0 <= i < |parts| && 0 <= j < |parts[i]| ==> parts[i][j] != sep
    decreases |s|
  {
    if |s| == 0 then [""]
    else
      var rest := SplitAll(s[1..], sep);
      if s[0] == sep then [""] + rest
      else [[s[0]] + rest[0]] + rest[1..]
  }

  /** Java's `split` drops trailing empty strings. */
  function DropTrailingEmpty(parts: seq<string>): (r: seq<string>)
    ensures |r| <= |parts| && r == parts[..|r|]
    ensures |r| > 0 ==> r[|r| - 1] != ""
    ensures forall i :: |r| <= i < |parts| ==> parts[i] == ""
  {
    if |parts| == 0 then []
    else if parts[|parts| - 1] == "" then DropTrailingEmpty(parts[..|parts| - 1])
    else parts
  }

  /**
   * `s.split(String.valueOf(sep))`: with no occurrence of `sep` the result is
   * `[s]` (even for the empty string); otherwise all pieces, minus trailing
   * empty ones.
   */
  function JavaSplit(s: string, sep: char): (r: seq<string>)
    ensures sep !in s ==> r == [s]
    ensures forall i, j :: 0 <= i < |r| && 0 <= j < |r[i]| ==> r[i][j] != sep
    ensures sep in s && |r| > 0 ==> r[|r| - 1] != ""
  {
    if sep !in s then [s] else DropTrailingEmpty(SplitAll(s, sep))
  }

  lemma {:induction false} SplitAllJoin(a: string, b: string, sep: char)
    requires sep !in a && sep !in b
    ensures SplitAll(a + [sep] + b, sep) == [a, b]
    decreases |a|
  {
    if |a| == 0 {
      assert a + [sep] + b == [sep] + b;
      assert ([sep] + b)[1..] == b;
      SplitAllNoSep(b, sep);
    } else {
      assert (a + [sep] + b)[1..] == a[1..] + [sep] + b;
      SplitAllJoin(a[1..], b, sep);
      assert [a[0]] + a[1..] == a;
    }
  }

  lemma {:induction false} SplitAllNoSep(s: string, sep: char)
    requires sep !in s
    ensures SplitAll(s, sep) == [s]
    decreases |s|
  {
    if |s| > 0 {
      SplitAllNoSep(s[1..], sep);
      assert [s[0]] + s[1..] == s;
    }
  }

  /** Splitting `a:b` gives back `a` and `b` when neither holds a separator and `b` is not empty. */
  lemma JavaSplitJoin(a: string, b: string, sep: char)
    requires sep !in a && sep !in b && b != ""
    ensures JavaSplit(a + [sep] + b, sep) == [a, b]
  {
    var s := a + [sep] + b;
    assert s[|a|] == sep;
    SplitAllJoin(a, b, sep);
  }
}

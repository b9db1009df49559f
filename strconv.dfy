/**
 * The two conversions of Go's strconv package that the protocol relies on:
 * FormatInt (decimal rendering) and ParseInt(s, 10, 64) (decimal parsing into
 * a 64-bit integer), with ParseInt's error and saturation behaviour.
 */
module Strconv {
  import opened Wrappers
  import opened ByteUtil

  const MaxInt64: int := 0x7fff_ffff_ffff_ffff
  const MinInt64: int := -0x8000_0000_0000_0000
  const MaxUint64: int := 0xffff_ffff_ffff_ffff

  type int64 = x: int | -0x8000_0000_0000_0000 <= x <= 0x7fff_ffff_ffff_ffff

  /** strconv.ErrSyntax and strconv.ErrRange. */
  datatype NumErrorKind = ErrSyntax | ErrRange

  /** A *strconv.NumError raised by ParseInt: the text that failed and why. */
  datatype NumError = NumError(num: seq<byte>, err: NumErrorKind)

  /** ParseInt's two results: the (possibly saturated) value and the error. */
  datatype Parsed = Parsed(value: int64, err: Option<NumError>)

  predicate AllDigits(s: seq<byte>) {
    forall i :: 0 <= i < |s| ==> IsDigit(s[i])
  }

  /** The decimal digits of u, most significant first, without leading zeros. */
  function FormatUint(u: nat): (r: seq<byte>)
    ensures 1 <= |r| && AllDigits(r)
    ensures |r| > 1 ==> r[0] != 48
    decreases u
  {
    if u < 10 then [48 + u] else FormatUint(u / 10) + [48 + u % 10]
  }

  /** strconv.FormatInt(i, 10): an optional minus sign followed by the digits of |i|. */
  function FormatInt(i: int): (r: seq<byte>)
    ensures 1 <= |r|
    ensures forall k :: 0 <= k < |r| ==> IsDigit(r[k]) || (k == 0 && r[k] == MINUS)
    ensures (r[0] == MINUS) <==> i < 0
  {
    if i < 0 then [MINUS] + FormatUint(-i) else FormatUint(i)
  }

  lemma FormatIntNoNewline(i: int)
    ensures NoNewline(FormatInt(i)) && NoCrlf(FormatInt(i))
  {
  }

  /** What strconv.ParseUint found: an unsigned value or the first error. */
  datatype UintResult = Uint(u: nat) | UintError(kind: NumErrorKind)

  /**
   * The digit loop of ParseUint, from the left: the first byte that is not a
   * digit is a syntax error, the first digit that takes the value past
   * MaxUint64 is a range error, whichever comes first. Written from the right,
   * the prefix is judged before its last byte, which gives the same order.
   */
  function Accumulate(s: seq<byte>): (r: UintResult)
    ensures r.Uint? ==> r.u <= MaxUint64 && AllDigits(s)
    ensures r.UintError? && r.kind == ErrSyntax ==> !AllDigits(s)
  {
    if s == [] then Uint(0)
    else
      match Accumulate(s[..|s| - 1])
      case UintError(k) => UintError(k)
      case Uint(u) =>
        var b := s[|s| - 1];
        if !IsDigit(b) then UintError(ErrSyntax)
        else if u * 10 + (b - 48) > MaxUint64 then UintError(ErrRange)
        else Uint(u * 10 + (b - 48))
  }

  /** strconv.ParseUint(s, 10, 64): an empty string is a syntax error. */
  function ParseUint(s: seq<byte>): (r: UintResult)
    ensures s == [] ==> r == UintError(ErrSyntax)
    ensures r.Uint? ==> s != [] && AllDigits(s) && r.u <= MaxUint64
    ensures r.UintError? && r.kind == ErrSyntax ==> s == [] || !AllDigits(s)
  {
    if s == [] then UintError(ErrSyntax) else Accumulate(s)
  }

  /**
   * strconv.ParseInt(s, 10, 64): an optional sign, then ParseUint. A syntax
   * error yields 0; an out-of-range magnitude yields the saturated bound
   * with ErrRange.
   */
  function ParseInt(s: seq<byte>): (r: Parsed)
    ensures r.err.Some? ==> r.err.value.num == s
    ensures r.err.Some? && r.err.value.err == ErrSyntax ==> r.value == 0
    ensures r.err.Some? && r.err.value.err == ErrRange ==>
      s != [] && r.value == (if s[0] == MINUS then MinInt64 else MaxInt64)
  {
    if s == [] then Parsed(0, Some(NumError(s, ErrSyntax)))
    else
      var neg := s[0] == MINUS;
      var digits := if s[0] == PLUS || s[0] == MINUS then s[1..] else s;
      match ParseUint(digits)
      case UintError(ErrSyntax) => Parsed(0, Some(NumError(s, ErrSyntax)))
      case UintError(ErrRange) =>
        Parsed(if neg then MinInt64 else MaxInt64, Some(NumError(s, ErrRange)))
      case Uint(u) =>
        if !neg && u > MaxInt64 then Parsed(MaxInt64, Some(NumError(s, ErrRange)))
        else if neg && u > -MinInt64 then Parsed(MinInt64, Some(NumError(s, ErrRange)))
        else Parsed(if neg then -(u as int) else u, None)
  }

  /** Reading back the digits FormatUint writes gives the number, when it fits. */
  lemma {:induction false} AccumulateFormatUint(u: nat)
    requires u <= MaxUint64
    ensures Accumulate(FormatUint(u)) == Uint(u)
  {
    var s := FormatUint(u);
    if u >= 10 {
      AccumulateFormatUint(u / 10);
      assert s[..|s| - 1] == FormatUint(u / 10);
    }
  }

  /** Every 64-bit integer survives FormatInt followed by ParseInt. */
  lemma FormatIntParseInt(i: int64)
    ensures ParseInt(FormatInt(i)) == Parsed(i, None)
  {
    var s := FormatInt(i);
    if i < 0 {
      AccumulateFormatUint(-(i as int));
      assert s[1..] == FormatUint(-(i as int));
    } else {
      AccumulateFormatUint(i);
    }
  }

  /** A string whose first byte is not a digit fails with a syntax error. */
  lemma {:induction false} AccumulateLeadingNonDigit(s: seq<byte>)
    requires s != [] && !IsDigit(s[0])
    ensures Accumulate(s) == UintError(ErrSyntax)
  {
    if |s| > 1 {
      AccumulateLeadingNonDigit(s[..|s| - 1]);
    }
  }

  /** Text that holds no digit at all never parses, and coerces to 0. */
  lemma ParseIntNoDigits(s: seq<byte>)
    requires forall i :: 0 <= i < |s| ==> !IsDigit(s[i])
    ensures ParseInt(s).err.Some? && ParseInt(s).err.value.err == ErrSyntax
    ensures ParseInt(s).value == 0
  {
    var digits := if s != [] && (s[0] == PLUS || s[0] == MINUS) then s[1..] else s;
    if digits != [] {
      AccumulateLeadingNonDigit(digits);
    }
  }
}

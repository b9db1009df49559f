/**
 * The protocol's value type and its accessors and reply constructors
 * (pkg/parser/parser.go, lines 11-158).
 */
module Values {
  import opened Wrappers
  import opened ByteUtil
  import opened Strconv

  /** The five type tags; a Value's typ is the tag byte itself. */
  const SimpleStrings: byte := 43  // '+'
  const Errors: byte := 45         // '-'
  const Integers: byte := 58       // ':'
  const BulkStrings: byte := 36    // '$'
  const Arrays: byte := 42         // '*'

  predicate IsTag(b: byte) {
    b == SimpleStrings || b == Errors || b == Integers || b == BulkStrings || b == Arrays
  }

  predicate IsText(typ: byte) {
    typ == SimpleStrings || typ == Errors || typ == BulkStrings
  }

  /**
   * A RESP value. Every field is present whatever the type, as in the Go
   * struct: typ selects which of integer, str and elements is meaningful, and
   * isNull is independent of typ (a value with no type at all exists too).
   */
  datatype Value = Value(typ: byte, integer: int64, str: seq<byte>, elements: seq<Value>, isNull: bool)
  {
    /**
     * The text of the value: the raw bytes of a textual value, the decimal
     * form of an integer, fmt's "%v" rendering of an array, and nothing for a
     * value of any other type.
     */
    function String(): (r: seq<byte>)
      ensures IsText(typ) ==> r == str
      ensures typ == Integers ==> ParseInt(r) == Parsed(integer, None)
      ensures typ == Arrays ==> |r| >= 2 && r[0] == 91 && r[|r| - 1] == 93
      ensures !IsText(typ) && typ != Integers && typ != Arrays ==> r == []
      decreases this, 1
    {
      if IsText(typ) then str
      else if typ == Integers then
        FormatIntParseInt(integer);
        FormatInt(integer)
      else if typ == Arrays then [91] + Join(elements) + [93]  // '[' ... ']'
      else []
    }

    /**
     * The integer of an Integers value; for any other value the decimal parse
     * of String(), where text that does not parse gives 0 and an out-of-range
     * number gives the nearest 64-bit bound.
     */
    function Integer(): (r: int64)
      ensures typ == Integers ==> r == integer
      ensures typ != Integers ==> r == ParseInt(String()).value
    {
      if typ == Integers then integer else ParseInt(String()).value
    }

    /** The raw bytes of a textual value, otherwise the bytes of String(). */
    function Bytes(): (r: seq<byte>)
      ensures r == String()
    {
      if IsText(typ) then str else String()
    }

    function IsNull(): (r: bool)
      ensures r <==> isNull
    {
      isNull
    }

    /** An error carrying str, for an Errors value only. */
    function Error(): (r: Option<seq<byte>>)
      ensures r.Some? <==> typ == Errors
      ensures r.Some? ==> r.value == str
    {
      if typ == Errors then Some(str) else None
    }

    /**
     * The elements of a non-null array; empty for a null array and for every
     * other type, so that callers cannot tell those apart.
     */
    function Array(): (r: seq<Value>)
      ensures typ == Arrays && !isNull ==> r == elements
      ensures r != [] ==> typ == Arrays && !isNull
    {
      if !isNull && typ == Arrays then elements else []
    }
  }

  /** The String() of each value, separated by single spaces. */
  function Join(vs: seq<Value>): (r: seq<byte>)
    ensures vs == [] ==> r == []
    decreases vs, 0
  {
    if vs == [] then []
    else if |vs| == 1 then vs[0].String()
    else vs[0].String() + [SPACE] + Join(vs[1..])
  }

  /** nullValue: a null value with no type at all. */
  const NullValue: Value := Value(0, 0, [], [], true)

  /** CR and LF each become a space; every other byte is kept. */
  function ReplaceNewlineWithSpace(s: seq<byte>): (r: seq<byte>)
    ensures |r| == |s|
    ensures forall i :: 0 <= i < |s| ==>
      r[i] == (if s[i] == CR || s[i] == LF then SPACE else s[i])
    ensures NoNewline(r)
  {
    if s == [] then []
    else [if s[0] == CR || s[0] == LF then SPACE else s[0]] + ReplaceNewlineWithSpace(s[1..])
  }

  /** A simple-string reply; CR and LF in s are turned into spaces. */
  function SimpleStringsValue(s: seq<byte>): (r: Value)
    ensures r.typ == SimpleStrings && !r.isNull
    ensures NoNewline(r.str) && |r.str| == |s|
    ensures forall i | 0 <= i < |s| :: r.str[i] == (if s[i] == CR || s[i] == LF then SPACE else s[i])
    ensures NoNewline(s) ==> r.str == s
  {
    Value(SimpleStrings, 0, ReplaceNewlineWithSpace(s), [], false)
  }

  function BulkStringsValue(b: seq<byte>): (r: Value)
    ensures r.typ == BulkStrings && !r.isNull && r.str == b
  {
    Value(BulkStrings, 0, b, [], false)
  }

  /** The null bulk string. */
  function NullsValue(): (r: Value)
    ensures r.typ == BulkStrings && r.isNull
  {
    Value(BulkStrings, 0, [], [], true)
  }

  /**
   * An error reply holding the error's message, or no text for a nil error.
   * Unlike SimpleStringsValue it keeps CR and LF.
   */
  function ErrorsValue(err: Option<seq<byte>>): (r: Value)
    ensures r.Error() == Some(if err.Some? then err.value else [])
    ensures !r.isNull
  {
    if err.None? then Value(Errors, 0, [], [], false)
    else Value(Errors, 0, err.value, [], false)
  }

  function IntegersValue(i: int64): (r: Value)
    ensures r.typ == Integers && r.integer == i && !r.isNull
  {
    Value(Integers, i, [], [], false)
  }

  function ArrayValue(vals: seq<Value>): (r: Value)
    ensures r.typ == Arrays && !r.isNull && r.elements == vals && r.Array() == vals
  {
    Value(Arrays, 0, [], vals, false)
  }

  /** A bulk-string reply hands back exactly its bytes, and is not null. */
  lemma BulkStringsValueBytes(b: seq<byte>)
    ensures BulkStringsValue(b).Bytes() == b && BulkStringsValue(b).String() == b
    ensures !BulkStringsValue(b).IsNull() && BulkStringsValue(b).Array() == []
  {
  }

  /** The null bulk string reports null, and has no bytes and no elements. */
  lemma NullsValueIsNull()
    ensures NullsValue().IsNull() && NullsValue().Bytes() == [] && NullsValue().Array() == []
  {
  }

  /** An integer reply coerces to its integer and renders as its decimal form. */
  lemma IntegersValueInteger(i: int64)
    ensures IntegersValue(i).Integer() == i && IntegersValue(i).String() == FormatInt(i)
  {
  }

  /** A simple string never carries a line break. */
  lemma SimpleStringsValueIsOneLine(s: seq<byte>)
    ensures NoCrlf(SimpleStringsValue(s).str)
  {
    NoNewlineNoCrlf(SimpleStringsValue(s).str);
  }

  /** An error reply is passed through unstripped: a CR or LF in the message survives. */
  lemma ErrorsValueKeepsNewlines(msg: seq<byte>)
    ensures ErrorsValue(Some(msg)).str == msg
    ensures !NoNewline(msg) ==> !NoNewline(ErrorsValue(Some(msg)).str)
  {
  }

  /** Coercing a value's String() with ParseInt agrees with Integer(), for integers too. */
  lemma IntegerAgreesWithString(v: Value)
    ensures v.Integer() == ParseInt(v.String()).value
  {
  }

  /** The lenient coercion: text with no digit at all is the integer 0. */
  lemma IntegerOfNonNumericText(v: Value)
    requires IsText(v.typ)
    requires forall i :: 0 <= i < |v.str| ==> !IsDigit(v.str[i])
    ensures v.Integer() == 0
  {
    ParseIntNoDigits(v.str);
  }

  /** A bulk string holding the decimal form of i coerces to i. */
  lemma IntegerOfDecimalBulk(i: int64)
    ensures BulkStringsValue(FormatInt(i)).Integer() == i
  {
    FormatIntParseInt(i);
  }
}

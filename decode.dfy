/**
 * What the decoder (pkg/parser/reader.go) does to an input stream, as
 * functions of the whole input `data` and the read position `pos`. Each
 * returns what the Go function returns (value, byte count n, error) together
 * with the position the stream is left at.
 */
module Decode {
  import opened Wrappers
  import opened ByteUtil
  import opened Strconv
  import opened ParserError
  import opened Values

  /** Largest bulk-string length the decoder accepts: 512 MiB. */
  const MaxBulkLen: int := 512 * 1024 * 1024
  /** Largest array count the decoder reads elements for: 1 Mi. */
  const MaxArrayLen: int := 1024 * 1024

  /**
   * The three framing faults the decoder reports, each as an *ErrorProtocol
   * with a fixed message (see ProtocolFault.AsError).
   */
  datatype ProtocolFault = UnknownFirstByte | InvalidBulkLength | InvalidBulkEnding
  {
    /** The ErrorProtocol value the decoder returns for this fault. */
    function AsError(): ErrorProtocol {
      match this
      case UnknownFirstByte => ErrorProtocol(Ascii("unknown first byte"))
      case InvalidBulkLength => ErrorProtocol(Ascii("invalid bulk length"))
      case InvalidBulkEnding => ErrorProtocol(Ascii("invalid bulk string ending"))
    }
  }

  /**
   * The errors a read can end with: io.EOF, io.ErrUnexpectedEOF (input ended
   * inside a bulk payload), a *strconv.NumError from a length, count or
   * integer line, and the decoder's own ErrorProtocol.
   */
  datatype ReadError = EOF | UnexpectedEOF | NumErr(e: NumError) | Protocol(fault: ProtocolFault)

  /** One read: the value, the byte count n the code reports, the error, and where the stream is left. */
  datatype Read = Read(val: Value, n: int, err: Option<ReadError>, next: nat)

  /** readLine's results: the line without its CRLF, n, the error, and the new position. */
  datatype Line = Line(line: seq<byte>, n: int, err: Option<ReadError>, next: nat)

  /** readInt's results. */
  datatype IntLine = IntLine(i: int64, n: int, err: Option<ReadError>, next: nat)

  /** No two framing faults print the same message. */
  lemma ProtocolFaultMessagesDistinct(f: ProtocolFault, g: ProtocolFault)
    ensures f.AsError().Error() == g.AsError().Error() <==> f == g
  {
    ErrorInjective(f.AsError(), g.AsError());
    if f != g {
      assert |f.AsError().msg| != |g.AsError().msg|;
    }
  }

  /** Value{typ: '*', null: true}, the null array the decoder produces. */
  const NullArray: Value := Value(Arrays, 0, [], [], true)

  /** The first index j >= i where data holds "\r\n", if any. */
  function CrlfFrom(data: seq<byte>, i: nat): (r: Option<nat>)
    ensures r.Some? ==> i <= r.value && CrlfAt(data, r.value)
    decreases |data| - i
  {
    if i + 1 >= |data| then None
    else if CrlfAt(data, i) then Some(i)
    else CrlfFrom(data, i + 1)
  }

  /** No "\r\n" starts between i and the one CrlfFrom finds (or anywhere after i). */
  lemma {:induction false} CrlfFromFirst(data: seq<byte>, i: nat)
    ensures CrlfFrom(data, i).Some? ==> forall j :: i <= j < CrlfFrom(data, i).value ==> !CrlfAt(data, j)
    ensures CrlfFrom(data, i).None? ==> forall j :: i <= j ==> !CrlfAt(data, j)
    decreases |data| - i
  {
    if i + 1 < |data| && !CrlfAt(data, i) {
      CrlfFromFirst(data, i + 1);
    }
  }

  /** With no "\r\n" starting in [i, k), the search from i and from k agree. */
  lemma {:induction false} CrlfFromSkip(data: seq<byte>, i: nat, k: nat)
    requires i <= k
    requires forall j :: i <= j < k ==> !CrlfAt(data, j)
    ensures CrlfFrom(data, i) == CrlfFrom(data, k)
    decreases k - i
  {
    if i < k {
      CrlfFromSkip(data, i + 1, k);
    }
  }

  /**
   * readLine: the bytes up to the first "\r\n" at or after pos, consuming
   * through it. A read that meets the end of input first leaves the stream at
   * its end and reports n = 0.
   */
  function DecodeLine(data: seq<byte>, pos: nat): (r: Line)
    requires pos <= |data|
    ensures pos <= r.next <= |data|
    ensures r.err.Some? ==> r.err == Some(EOF) && r.n == 0 && r.line == [] && r.next == |data|
    ensures r.err.None? ==> r.n == r.next - pos >= 2 && |r.line| == r.n - 2
  {
    match CrlfFrom(data, pos)
    case None => Line([], 0, Some(EOF), |data|)
    case Some(j) => Line(data[pos..j], j + 2 - pos, None, j + 2)
  }

  /** What readLine consumes on success is the line followed by its CRLF. */
  lemma DecodeLineFrame(data: seq<byte>, pos: nat)
    requires pos <= |data|
    ensures var r := DecodeLine(data, pos);
      r.err.None? ==> data[pos..r.next] == r.line + CRLF
  {
    var r := DecodeLine(data, pos);
    if r.err.None? {
      assert data[pos..r.next] == data[pos..r.next - 2] + data[r.next - 2..r.next];
    }
  }

  /** A line readLine returns holds no "\r\n" of its own. */
  lemma DecodeLineNoCrlf(data: seq<byte>, pos: nat)
    requires pos <= |data|
    ensures DecodeLine(data, pos).err.None? ==> NoCrlf(DecodeLine(data, pos).line)
  {
    CrlfFromFirst(data, pos);
    var l := DecodeLine(data, pos);
    if l.err.None? {
      assert forall k | 0 <= k < |l.line| :: CrlfAt(l.line, k) ==> CrlfAt(data, pos + k);
    }
  }

  /** readLine stops at the first "\r\n" from pos, here the one at e - 2. */
  lemma DecodeLineFound(data: seq<byte>, pos: nat, e: nat)
    requires pos + 2 <= e <= |data| && CrlfFrom(data, pos) == Some(e - 2)
    ensures DecodeLine(data, pos) == Line(data[pos..e - 2], e - pos, None, e)
  {
  }

  /** readLine with no "\r\n" ahead: io.EOF at the end of input. */
  lemma DecodeLineMissing(data: seq<byte>, pos: nat)
    requires pos <= |data| && CrlfFrom(data, pos).None?
    ensures DecodeLine(data, pos) == Line([], 0, Some(EOF), |data|)
  {
  }

  /** readInt: a line parsed by ParseInt; a parse failure keeps the line's n. */
  function DecodeInt(data: seq<byte>, pos: nat): (r: IntLine)
    requires pos <= |data|
    ensures pos <= r.next <= |data|
    ensures 0 <= r.n <= r.next - pos
    ensures r.err.None? ==> r.n == r.next - pos >= 2
  {
    var l := DecodeLine(data, pos);
    if l.err.Some? then IntLine(0, 0, l.err, l.next)
    else
      var p := ParseInt(l.line);
      if p.err.Some? then IntLine(0, l.n, Some(NumErr(p.err.value)), l.next)
      else IntLine(p.value, l.n, None, l.next)
  }

  /**
   * readValue: one tag byte, then the reader for that tag. A byte that is no
   * tag fails after consuming exactly that byte.
   */
  function DecodeValue(data: seq<byte>, pos: nat): (r: Read)
    requires pos <= |data|
    ensures pos <= r.next <= |data|
    ensures r.err.None? ==> r.next > pos
    decreases |data| - pos, 0, 0
  {
    if pos == |data| then Read(NullValue, 0, Some(EOF), pos)
    else
      var c := data[pos];
      if !IsTag(c) then Read(NullValue, 1, Some(Protocol(UnknownFirstByte)), pos + 1)
      else
        var r :=
          if c == Arrays then DecodeArrayValue(data, pos + 1)
          else if c == Errors then DecodeTextValue(data, pos + 1, Errors)
          else if c == SimpleStrings then DecodeTextValue(data, pos + 1, SimpleStrings)
          else if c == Integers then DecodeIntegersValue(data, pos + 1)
          else DecodeBulkStringsValue(data, pos + 1);
        Read(r.val, 1 + r.n, r.err, r.next)
  }

  /** readSimpleValue and readErrorsValue: the line, verbatim, as the text of a value of type typ. */
  function DecodeTextValue(data: seq<byte>, pos: nat, typ: byte): (r: Read)
    requires pos <= |data|
    ensures pos <= r.next <= |data|
    ensures 0 <= r.n <= r.next - pos
    ensures r.err.None? ==> r.n == r.next - pos && r.val == Value(typ, 0, r.val.str, [], false)
    ensures r.err.Some? ==> r.val == NullValue && r.err == Some(EOF)
  {
    var l := DecodeLine(data, pos);
    if l.err.Some? then Read(NullValue, l.n, l.err, l.next)
    else Read(Value(typ, 0, l.line, [], false), l.n, None, l.next)
  }

  /** readIntegersValue. */
  function DecodeIntegersValue(data: seq<byte>, pos: nat): (r: Read)
    requires pos <= |data|
    ensures pos <= r.next <= |data|
    ensures 0 <= r.n <= r.next - pos
    ensures r.err.None? ==> r.n == r.next - pos && r.val.typ == Integers
    ensures r.err.Some? ==> r.val == NullValue
  {
    var c := DecodeInt(data, pos);
    if c.err.Some? then Read(NullValue, c.n, c.err, c.next)
    else Read(Value(Integers, c.i, [], [], false), c.n, None, c.next)
  }

  /**
   * readBulkStringsValue: a length line; a negative length is the null bulk
   * string, a length above MaxBulkLen a protocol error before any payload is
   * read; otherwise exactly length + 2 bytes are read (io.ReadFull), and the
   * last two must be CR LF.
   */
  function DecodeBulkStringsValue(data: seq<byte>, pos: nat): (r: Read)
    requires pos <= |data|
    ensures pos <= r.next <= |data|
    ensures 0 <= r.n <= r.next - pos
    ensures r.err.None? ==> r.n == r.next - pos && r.val.typ == BulkStrings
    ensures r.err.Some? ==> r.val == NullValue
  {
    var c := DecodeInt(data, pos);
    if c.err.Some? then Read(NullValue, c.n, c.err, c.next)
    else if c.i < 0 then Read(NullsValue(), c.n, None, c.next)
    else if c.i > MaxBulkLen then Read(NullValue, c.n, Some(Protocol(InvalidBulkLength)), c.next)
    else
      var end := c.next + c.i;
      if |data| < end + 2 then
        Read(NullValue, c.n + (|data| - c.next), Some(if |data| == c.next then EOF else UnexpectedEOF), |data|)
      else if data[end] != CR || data[end + 1] != LF then
        Read(NullValue, c.n + c.i + 2, Some(Protocol(InvalidBulkEnding)), end + 2)
      else
        Read(BulkStringsValue(data[c.next..end]), c.n + c.i + 2, None, end + 2)
  }

  /**
   * After a length line for len bytes ending at start: too few bytes left is
   * an EOF error, a bad ending is InvalidBulkEnding, otherwise the len bytes.
   */
  lemma DecodeBulkAfterLength(data: seq<byte>, pos: nat, len: nat, cn: int, start: nat)
    requires pos <= |data| && len <= MaxBulkLen
    requires DecodeInt(data, pos) == IntLine(len, cn, None, start)
    ensures start <= |data|
    ensures var r := DecodeBulkStringsValue(data, pos);
      if |data| < start + len + 2 then
        r == Read(NullValue, cn + (|data| - start), Some(if |data| == start then EOF else UnexpectedEOF), |data|)
      else if data[start + len] != CR || data[start + len + 1] != LF then
        r == Read(NullValue, cn + len + 2, Some(Protocol(InvalidBulkEnding)), start + len + 2)
      else
        r == Read(BulkStringsValue(data[start..start + len]), cn + len + 2, None, start + len + 2)
  {
  }

  /** A length line for s, then s and CRLF: the bulk string s. */
  lemma DecodeBulkFound(data: seq<byte>, pos: nat, s: seq<byte>, cn: int, start: nat)
    requires pos <= |data| && |s| <= MaxBulkLen
    requires DecodeInt(data, pos) == IntLine(|s|, cn, None, start)
    requires start + |s| + 2 <= |data| && data[start..start + |s|] == s
    requires data[start + |s|] == CR && data[start + |s| + 1] == LF
    ensures DecodeBulkStringsValue(data, pos) == Read(BulkStringsValue(s), cn + |s| + 2, None, start + |s| + 2)
  {
  }

  /**
   * readArrayValue: a count line; a failed count, or a count above
   * MaxArrayLen, gives the typeless null value with the count line's error
   * (none at all for an oversized count); a negative count is the null array;
   * otherwise exactly count elements follow.
   */
  function DecodeArrayValue(data: seq<byte>, pos: nat): (r: Read)
    requires pos <= |data|
    ensures pos <= r.next <= |data|
    decreases |data| - pos, 2, 0
  {
    var c := DecodeInt(data, pos);
    if c.err.Some? || c.i > MaxArrayLen then Read(NullValue, c.n, c.err, c.next)
    else if c.i < 0 then Read(NullArray, c.n, None, c.next)
    else DecodeElements(data, c.next, c.i, [], c.n)
  }

  /**
   * The element loop of readArrayValue, from the state where the elements in
   * acc are read, `remaining` are still due and n bytes are counted so far:
   * the first element error ends the array with that error.
   */
  function DecodeElements(data: seq<byte>, pos: nat, remaining: nat, acc: seq<Value>, n: int): (r: Read)
    requires pos <= |data|
    ensures pos <= r.next <= |data|
    decreases |data| - pos, 1, remaining
  {
    if remaining == 0 then Read(ArrayValue(acc), n, None, pos)
    else
      var r := DecodeValue(data, pos);
      if r.err.Some? then Read(NullValue, n + r.n, r.err, r.next)
      else DecodeElements(data, r.next, remaining - 1, acc + [r.val], n + r.n)
  }

  /** An accepted, non-negative count line hands over to the element loop. */
  lemma DecodeArrayCount(data: seq<byte>, pos: nat, count: int64, cn: int, cnext: nat, target: Read)
    requires pos <= |data| && 0 <= count <= MaxArrayLen
    requires DecodeInt(data, pos) == IntLine(count, cn, None, cnext)
    requires DecodeArrayValue(data, pos) == target
    ensures cnext <= |data| && DecodeElements(data, cnext, count as nat, [], cn) == target
  {
  }

  /** One turn of the element loop: an element read without error moves the loop on by one. */
  lemma DecodeElementsStep(data: seq<byte>, pos: nat, remaining: nat, acc: seq<Value>, n: int,
                           v: Value, vn: int, next: nat, target: Read)
    requires pos <= |data| && remaining > 0
    requires DecodeElements(data, pos, remaining, acc, n) == target
    requires DecodeValue(data, pos) == Read(v, vn, None, next)
    ensures next <= |data| && DecodeElements(data, next, remaining - 1, acc + [v], n + vn) == target
  {
    var r := DecodeValue(data, pos);
    assert target == DecodeElements(data, r.next, remaining - 1, acc + [r.val], n + r.n);
  }

  /** An element read that fails ends the loop with nullValue and that error. */
  lemma DecodeElementsFail(data: seq<byte>, pos: nat, remaining: nat, acc: seq<Value>, n: int,
                           v: Value, vn: int, err: Option<ReadError>, next: nat, target: Read)
    requires pos <= |data| && remaining > 0 && err.Some?
    requires DecodeElements(data, pos, remaining, acc, n) == target
    requires DecodeValue(data, pos) == Read(v, vn, err, next)
    ensures target == Read(NullValue, n + vn, err, next)
  {
  }

  /** With no element due, the loop ends with the array of what it read. */
  lemma DecodeElementsDone(data: seq<byte>, pos: nat, acc: seq<Value>, n: int, target: Read)
    requires pos <= |data|
    requires DecodeElements(data, pos, 0, acc, n) == target
    ensures target == Read(ArrayValue(acc), n, None, pos)
  {
  }

  /**
   * Byte accounting of readValue: on success the n it reports is exactly the
   * number of bytes consumed; a failure carries no value (nullValue).
   */
  lemma {:induction false} DecodeValueAccounting(data: seq<byte>, pos: nat)
    requires pos <= |data|
    ensures var r := DecodeValue(data, pos);
      && (r.err.None? ==> r.n == r.next - pos)
      && (r.err.Some? ==> r.val == NullValue)
    decreases |data| - pos, 0, 0
  {
    if pos < |data| && data[pos] == Arrays {
      DecodeArrayAccounting(data, pos + 1);
    }
  }

  /** Byte accounting of readArrayValue. */
  lemma {:induction false} DecodeArrayAccounting(data: seq<byte>, pos: nat)
    requires pos <= |data|
    ensures var r := DecodeArrayValue(data, pos);
      && (r.err.None? ==> r.n == r.next - pos)
      && (r.err.Some? ==> r.val == NullValue)
    decreases |data| - pos, 2, 0
  {
    var c := DecodeInt(data, pos);
    if c.err.None? && 0 <= c.i <= MaxArrayLen {
      DecodeElementsAccounting(data, c.next, c.i, [], c.n);
    }
  }

  /** The element loop adds exactly the bytes it consumed to n on success. */
  lemma {:induction false} DecodeElementsAccounting(data: seq<byte>, pos: nat, remaining: nat, acc: seq<Value>, n: int)
    requires pos <= |data|
    ensures var r := DecodeElements(data, pos, remaining, acc, n);
      && (r.err.None? ==> r.n == n + (r.next - pos))
      && (r.err.Some? ==> r.val == NullValue)
    decreases |data| - pos, 1, remaining
  {
    if remaining > 0 {
      var target := DecodeElements(data, pos, remaining, acc, n);
      var r := DecodeValue(data, pos);
      DecodeValueAccounting(data, pos);
      if r.err.None? {
        DecodeElementsStep(data, pos, remaining, acc, n, r.val, r.n, r.next, target);
        DecodeElementsAccounting(data, r.next, remaining - 1, acc + [r.val], n + r.n);
      } else {
        DecodeElementsFail(data, pos, remaining, acc, n, r.val, r.n, r.err, r.next, target);
      }
    }
  }
}

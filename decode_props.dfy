/**
 * What the decoder promises about single frames (pkg/parser/reader.go):
 * the rules for the tag byte, for bulk lengths and array counts, for
 * integer lines, and the order in which array elements are read.
 */
module DecodeProperties {
  import opened Wrappers
  import opened ByteUtil
  import opened Strconv
  import opened Values
  import opened Decode

  /** A length, count or integer line fails only with io.EOF or a parse error. */
  lemma IntLineErrors(data: seq<byte>, pos: nat)
    requires pos <= |data|
    ensures var c := DecodeInt(data, pos);
      c.err.Some? ==> c.err.value.EOF? || c.err.value.NumErr?
  {
  }

  /**
   * The reader behind a tag at pos - 1 never ends with "unknown first byte"
   * without having read a whole line from pos.
   */
  lemma TagReaderNotBare(data: seq<byte>, pos: nat, tag: byte)
    requires pos <= |data| && IsTag(tag)
    ensures var r :=
        if tag == Arrays then DecodeArrayValue(data, pos)
        else if tag == Errors then DecodeTextValue(data, pos, Errors)
        else if tag == SimpleStrings then DecodeTextValue(data, pos, SimpleStrings)
        else if tag == Integers then DecodeIntegersValue(data, pos)
        else DecodeBulkStringsValue(data, pos);
      r.err == Some(Protocol(UnknownFirstByte)) ==> r.next >= pos + 2
  {
    IntLineErrors(data, pos);
  }

  /**
   * readValue fails with "unknown first byte" having consumed exactly one
   * byte precisely when that byte is none of the five tags: every reader
   * behind a tag either fails otherwise or reads a whole line first.
   */
  lemma UnknownFirstByteExactly(data: seq<byte>, pos: nat)
    requires pos <= |data|
    ensures var r := DecodeValue(data, pos);
      (r.err == Some(Protocol(UnknownFirstByte)) && r.next == pos + 1) <==> (pos < |data| && !IsTag(data[pos]))
  {
    if pos < |data| && IsTag(data[pos]) {
      TagReaderNotBare(data, pos + 1, data[pos]);
    }
  }

  /**
   * The length line of a bulk string decides the rest: a negative length is
   * the null bulk string and nothing after the line is read; a length above
   * MaxBulkLen is "invalid bulk length" before any payload is read; a length
   * that fails to parse is that parse error.
   */
  lemma BulkLengthRules(data: seq<byte>, pos: nat)
    requires pos <= |data|
    ensures var c := DecodeInt(data, pos);
      var r := DecodeBulkStringsValue(data, pos);
      && (c.err.Some? ==> r == Read(NullValue, c.n, c.err, c.next))
      && (c.err.None? && c.i < 0 ==> r == Read(NullsValue(), c.n, None, c.next) && r.next == pos + r.n)
      && (c.err.None? && c.i > MaxBulkLen ==>
            r == Read(NullValue, c.n, Some(Protocol(InvalidBulkLength)), c.next) && r.next == pos + r.n)
  {
  }

  /**
   * With an accepted length L and at least L + 2 bytes after the length line,
   * exactly those L + 2 bytes are read; the read succeeds if and only if the
   * last two are CR LF, and then the text is the first L of them.
   */
  lemma BulkPayload(data: seq<byte>, pos: nat)
    requires pos <= |data|
    requires DecodeInt(data, pos).err.None? && 0 <= DecodeInt(data, pos).i <= MaxBulkLen
    requires DecodeInt(data, pos).next + DecodeInt(data, pos).i + 2 <= |data|
    ensures var c := DecodeInt(data, pos);
      var start, end := c.next, c.next + c.i;
      var r := DecodeBulkStringsValue(data, pos);
      && r.next == end + 2 && r.n == r.next - pos
      && (r.err.None? <==> data[end..end + 2] == CRLF)
      && (r.err.None? ==> r.val == BulkStringsValue(data[start..end]))
      && (r.err.Some? ==> r.err == Some(Protocol(InvalidBulkEnding)))
  {
    var c := DecodeInt(data, pos);
    var end := c.next + c.i;
    assert data[end..end + 2] == CRLF <==> data[end] == CR && data[end + 1] == LF;
  }

  /**
   * A bulk read that meets the end of input inside its payload counts every
   * byte that was left and fails with io.EOF (none left) or
   * io.ErrUnexpectedEOF.
   */
  lemma BulkTruncated(data: seq<byte>, pos: nat)
    requires pos <= |data|
    requires DecodeInt(data, pos).err.None? && 0 <= DecodeInt(data, pos).i <= MaxBulkLen
    requires |data| < DecodeInt(data, pos).next + DecodeInt(data, pos).i + 2
    ensures var r := DecodeBulkStringsValue(data, pos);
      && r.next == |data| && r.n == |data| - pos && r.val == NullValue
      && r.err == Some(if |data| == DecodeInt(data, pos).next then EOF else UnexpectedEOF)
  {
  }

  /**
   * The count line of an array: a negative count is the null array; a count
   * above MaxArrayLen gives the typeless null value with no error and reads
   * no element; a count that fails to parse is that parse error.
   */
  lemma ArrayCountRules(data: seq<byte>, pos: nat)
    requires pos <= |data|
    ensures var c := DecodeInt(data, pos);
      var r := DecodeArrayValue(data, pos);
      && (c.err.Some? ==> r == Read(NullValue, c.n, c.err, c.next))
      && (c.err.None? && c.i < 0 ==> r == Read(NullArray, c.n, None, c.next) && r.next == pos + r.n)
      && (c.err.None? && c.i > MaxArrayLen ==> r == Read(NullValue, c.n, None, c.next) && r.next == pos + r.n)
  {
  }

  /**
   * An integer line that is not a signed 64-bit decimal gives no value and
   * the parse error itself, which is not a protocol error.
   */
  lemma IntegerParseFailure(data: seq<byte>, pos: nat)
    requires pos <= |data|
    requires DecodeLine(data, pos).err.None? && ParseInt(DecodeLine(data, pos).line).err.Some?
    ensures var r := DecodeIntegersValue(data, pos);
      && r.val == NullValue
      && r.err == Some(NumErr(ParseInt(DecodeLine(data, pos).line).err.value))
      && r.next == DecodeLine(data, pos).next
  {
  }

  /**
   * vs are the values read one after another from pos, each without error,
   * the last one ending at end.
   */
  ghost predicate ReadsInOrder(data: seq<byte>, pos: nat, vs: seq<Value>, end: nat)
    requires pos <= |data|
    decreases |vs|
  {
    if vs == [] then end == pos
    else
      var r := DecodeValue(data, pos);
      r.err.None? && r.val == vs[0] && ReadsInOrder(data, r.next, vs[1..], end)
  }

  /**
   * The element loop succeeds with exactly the values read in order from
   * pos, after those already in acc.
   */
  lemma {:induction false} ElementsAreReadInOrder(data: seq<byte>, pos: nat, remaining: nat, acc: seq<Value>, n: int)
    requires pos <= |data|
    ensures var r := DecodeElements(data, pos, remaining, acc, n);
      r.err.None? ==>
        && r.val == ArrayValue(r.val.elements)
        && |r.val.elements| == |acc| + remaining && r.val.elements[..|acc|] == acc
        && ReadsInOrder(data, pos, r.val.elements[|acc|..], r.next)
    decreases remaining
  {
    var target := DecodeElements(data, pos, remaining, acc, n);
    if remaining == 0 {
      DecodeElementsDone(data, pos, acc, n, target);
      assert target.val.elements[|acc|..] == [];
    } else {
      var r := DecodeValue(data, pos);
      if r.err.None? {
        DecodeElementsStep(data, pos, remaining, acc, n, r.val, r.n, r.next, target);
        ElementsAreReadInOrder(data, r.next, remaining - 1, acc + [r.val], n + r.n);
        if target.err.None? {
          var es := target.val.elements;
          assert es[..|acc|] == (acc + [r.val])[..|acc|];
          assert es[|acc|..][0] == (acc + [r.val])[|acc|];
          assert es[|acc|..][1..] == es[|acc| + 1..];
        }
      }
    }
  }

  /**
   * Conversely, values that read in order from pos are what the element
   * loop returns for that many elements, counting every byte up to end.
   */
  lemma {:induction false} InOrderIsElements(data: seq<byte>, pos: nat, vs: seq<Value>, end: nat, acc: seq<Value>, n: int)
    requires pos <= |data| && ReadsInOrder(data, pos, vs, end)
    ensures end <= |data|
    ensures DecodeElements(data, pos, |vs|, acc, n) == Read(ArrayValue(acc + vs), n + (end - pos), None, end)
    decreases |vs|
  {
    var target := DecodeElements(data, pos, |vs|, acc, n);
    if vs == [] {
      DecodeElementsDone(data, pos, acc, n, target);
      assert acc + vs == acc;
    } else {
      var r := DecodeValue(data, pos);
      DecodeValueAccounting(data, pos);
      DecodeElementsStep(data, pos, |vs|, acc, n, r.val, r.n, r.next, target);
      InOrderIsElements(data, r.next, vs[1..], end, acc + [r.val], n + r.n);
      assert acc + [r.val] + vs[1..] == acc + vs;
    }
  }
}

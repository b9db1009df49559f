/**
 * The decoder as the Go code runs it (pkg/parser/reader.go): a Reader over
 * the bytes a peer sends, whose methods advance a read position and return
 * (value, n, err). Each method is proved to do what the matching function of
 * module Decode says.
 */
module Reader {
  import opened Wrappers
  import opened ByteUtil
  import opened Strconv
  import opened Values
  import opened Decode

  /** The first index k >= i with data[k] == b, if any. */
  function IndexFrom(data: seq<byte>, i: nat, b: byte): (r: Option<nat>)
    requires i <= |data|
    ensures r.Some? ==> i <= r.value < |data| && data[r.value] == b
    decreases |data| - i
  {
    if i == |data| then None
    else if data[i] == b then Some(i)
    else IndexFrom(data, i + 1, b)
  }

  /** Where ReadBytes(b) from i stops: just after the next b, or at the end of data. */
  function ChunkEnd(data: seq<byte>, i: nat, b: byte): (r: nat)
    requires i <= |data|
    ensures i <= r <= |data|
  {
    match IndexFrom(data, i, b)
    case Some(k) => k + 1
    case None => |data|
  }

  /** No b lies between i and the index IndexFrom finds (or the end of data). */
  lemma {:induction false} IndexFromFirst(data: seq<byte>, i: nat, b: byte)
    requires i <= |data|
    ensures var e := if IndexFrom(data, i, b).Some? then IndexFrom(data, i, b).value else |data|;
      forall k :: i <= k < e ==> data[k] != b
    decreases |data| - i
  {
    if i < |data| && data[i] != b {
      IndexFromFirst(data, i + 1, b);
    }
  }

  /** The test that ends readLine's loop: the line read so far ends in CR LF. */
  predicate EndsInCrlf(line: seq<byte>) {
    |line| >= 2 && line[|line| - 2] == CR
  }

  /** readLine meets the end of input: io.EOF, and DecodeLine agrees. */
  lemma LineMissing(data: seq<byte>, start: nat, p: nat)
    requires start <= p <= |data| && IndexFrom(data, p, LF).None?
    requires CrlfFrom(data, start) == CrlfFrom(data, p)
    ensures DecodeLine(data, start) == Line([], 0, Some(EOF), |data|)
  {
    IndexFromFirst(data, p, LF);
    CrlfFromSkip(data, p, |data|);
    DecodeLineMissing(data, start);
  }

  /** A prefix of a slice is a slice. */
  lemma SliceTake(s: seq<byte>, i: nat, j: nat, k: nat)
    requires i <= k <= j <= |s|
    ensures s[i..j][..k - i] == s[i..k]
  {
    assert forall x | 0 <= x < k - i :: s[i..j][..k - i][x] == s[i..k][x];
  }

  /**
   * One turn of readLine's loop: the chunk data[p..e] through the next '\n'
   * is appended to the line data[start..p] read so far, which is empty or
   * ends in '\n'. If data[start..e] ends in CR LF, that "\r\n" is the first
   * one from start; otherwise the first one from start is the first from e.
   */
  lemma LineChunk(data: seq<byte>, start: nat, p: nat, e: nat)
    requires start <= p < e <= |data| && IndexFrom(data, p, LF) == Some(e - 1)
    requires start < p ==> data[p - 1] == LF
    requires CrlfFrom(data, start) == CrlfFrom(data, p)
    ensures start + 2 <= e && data[e - 2] == CR ==> CrlfFrom(data, start) == Some(e - 2)
    ensures !(start + 2 <= e && data[e - 2] == CR) ==> CrlfFrom(data, start) == CrlfFrom(data, e)
  {
    IndexFromFirst(data, p, LF);
    if start + 2 <= e && data[e - 2] == CR {
      assert p <= e - 2;
      CrlfFromSkip(data, p, e - 2);
    } else {
      CrlfFromSkip(data, p, e);
    }
  }

  /**
   * One turn of readLine's loop: the line read so far, data[start..p],
   * grows by the chunk through the next '\n', to data[start..e]. If it now
   * ends in CR LF it is what DecodeLine returns; otherwise the search for
   * the first "\r\n" from start may resume at e.
   */
  lemma LineTurn(data: seq<byte>, start: nat, p: nat, e: nat)
    requires start <= p <= |data| && (start < p ==> data[p - 1] == LF)
    requires CrlfFrom(data, start) == CrlfFrom(data, p)
    requires IndexFrom(data, p, LF).Some? && e == ChunkEnd(data, p, LF)
    ensures p < e <= |data| && data[e - 1] == LF
    ensures EndsInCrlf(data[start..e]) ==>
      DecodeLine(data, start) == Line(data[start..e][..e - start - 2], e - start, None, e)
    ensures !EndsInCrlf(data[start..e]) ==> CrlfFrom(data, start) == CrlfFrom(data, e)
  {
    assert IndexFrom(data, p, LF) == Some(e - 1);
    var l := data[start..e];
    assert EndsInCrlf(l) <==> start + 2 <= e && data[e - 2] == CR;
    LineChunk(data, start, p, e);
    if start + 2 <= e && data[e - 2] == CR {
      DecodeLineFound(data, start, e);
      SliceTake(data, start, e, e - 2);
    }
  }

  /** The len bytes and the two after them, read from data at a, are the bytes of data there. */
  lemma FramedPayload(data: seq<byte>, a: nat, len: nat, bulk: seq<byte>)
    requires a + len + 2 <= |data| && bulk == data[a..a + len + 2]
    ensures |bulk| == len + 2 && bulk[..len] == data[a..a + len]
    ensures bulk[len] == data[a + len] && bulk[len + 1] == data[a + len + 1]
  {
  }

  class Reader {
    /** Everything the peer sends on the connection. */
    const data: seq<byte>
    /** How many of those bytes have been consumed. */
    var pos: nat

    ghost predicate Valid()
      reads this
    {
      pos <= |data|
    }

    /** NewReader over a connection that will deliver `input`. */
    constructor (input: seq<byte>)
      ensures Valid() && data == input && pos == 0
    {
      data := input;
      pos := 0;
    }

    /** bufio.Reader.ReadByte: the next byte, or io.EOF at the end of input. */
    method ReadByte() returns (c: byte, err: Option<ReadError>)
      requires Valid()
      modifies this
      ensures Valid()
      ensures old(pos) < |data| ==> err.None? && c == data[old(pos)] && pos == old(pos) + 1
      ensures old(pos) == |data| ==> err == Some(EOF) && pos == old(pos)
    {
      if pos == |data| {
        return 0, Some(EOF);
      }
      c, err := data[pos], None;
      pos := pos + 1;
    }

    /**
     * bufio.Reader.ReadBytes(delim): the bytes up to and including the next
     * delim; without one, the rest of the input and io.EOF.
     */
    method ReadBytes(delim: byte) returns (chunk: seq<byte>, err: Option<ReadError>)
      requires Valid()
      modifies this
      ensures Valid()
      ensures pos == ChunkEnd(data, old(pos), delim) && chunk == data[old(pos)..pos]
      ensures err == if IndexFrom(data, old(pos), delim).Some? then None else Some(EOF)
    {
      var start := pos;
      while pos < |data| && data[pos] != delim
        invariant start <= pos <= |data|
        invariant IndexFrom(data, start, delim) == IndexFrom(data, pos, delim)
        decreases |data| - pos
      {
        pos := pos + 1;
      }
      if pos == |data| {
        chunk, err := data[start..], Some(EOF);
      } else {
        pos := pos + 1;
        chunk, err := data[start..pos], None;
      }
    }

    /**
     * io.ReadFull of k bytes: all k of them, or whatever is left with io.EOF
     * (nothing left) or io.ErrUnexpectedEOF (some left).
     */
    method ReadFull(k: nat) returns (buf: seq<byte>, rn: nat, err: Option<ReadError>)
      requires Valid() && k > 0
      modifies this
      ensures Valid()
      ensures k <= |data| - old(pos) ==> err.None? && rn == k && buf == data[old(pos)..old(pos) + k] && pos == old(pos) + k
      ensures k > |data| - old(pos) ==> rn == |data| - old(pos) && pos == |data|
      ensures k > |data| - old(pos) ==> err == Some(if rn == 0 then EOF else UnexpectedEOF)
    {
      if |data| - pos < k {
        rn := |data| - pos;
        buf, err := data[pos..], Some(if rn == 0 then EOF else UnexpectedEOF);
        pos := |data|;
      } else {
        rn := k;
        buf, err := data[pos..pos + k], None;
        pos := pos + k;
      }
    }

    /** Read: one value, or the error that stopped it. */
    method Read() returns (value: Value, err: Option<ReadError>)
      requires Valid()
      modifies this
      ensures Valid()
      ensures value == DecodeValue(data, old(pos)).val && err == DecodeValue(data, old(pos)).err
      ensures pos == DecodeValue(data, old(pos)).next
    {
      var n;
      value, n, err := ReadValue();
    }

    /** readValue: a tag byte, then the reader that tag selects. */
    method ReadValue() returns (val: Value, n: int, err: Option<ReadError>)
      requires Valid()
      modifies this
      ensures Valid()
      ensures Decode.Read(val, n, err, pos) == DecodeValue(data, old(pos))
      decreases |data| - pos, 0
    {
      var c, e := ReadByte();
      if e.Some? {
        return NullValue, 0, e;
      }
      n := 1;
      var rn;
      if c == Arrays {
        val, rn, err := ReadArrayValue();
      } else if c == Errors {
        val, rn, err := ReadErrorsValue();
      } else if c == SimpleStrings {
        val, rn, err := ReadSimpleValue();
      } else if c == Integers {
        val, rn, err := ReadIntegersValue();
      } else if c == BulkStrings {
        val, rn, err := ReadBulkStringsValue();
      } else {
        return NullValue, n, Some(Protocol(UnknownFirstByte));
      }
      n := n + rn;
    }

    /**
     * readLine: ReadBytes('\n') chunks are appended until the line ends in
     * "\r\n"; a lone LF is kept in the line.
     */
    method ReadLine() returns (line: seq<byte>, n: int, err: Option<ReadError>)
      requires Valid()
      modifies this
      ensures Valid()
      ensures Line(line, n, err, pos) == DecodeLine(data, old(pos))
    {
      ghost var start := pos;
      line, n := [], 0;
      while true
        invariant start <= pos <= |data| && line == data[start..pos] && n == |line|
        invariant start < pos ==> data[pos - 1] == LF
        invariant CrlfFrom(data, start) == CrlfFrom(data, pos)
        decreases |data| - pos
      {
        ghost var p := pos;
        var b, e := ReadBytes(LF);
        if e.Some? {
          LineMissing(data, start, p);
          return [], 0, e;
        }
        LineTurn(data, start, p, pos);
        assert line + b == data[start..pos];
        n := n + |b|;
        line := line + b;
        if EndsInCrlf(line) {
          return line[..|line| - 2], n, None;
        }
      }
    }

    /** readInt: a line parsed as a signed decimal. */
    method ReadInt() returns (i: int64, n: int, err: Option<ReadError>)
      requires Valid()
      modifies this
      ensures Valid()
      ensures IntLine(i, n, err, pos) == DecodeInt(data, old(pos))
    {
      var line, ln, e := ReadLine();
      if e.Some? {
        return 0, 0, e;
      }
      var p := ParseInt(line);
      if p.err.Some? {
        return 0, ln, Some(NumErr(p.err.value));
      }
      return p.value, ln, None;
    }

    /** readArrayValue: the count line, then (for a count in range) the elements. */
    method ReadArrayValue() returns (val: Value, n: int, err: Option<ReadError>)
      requires Valid()
      modifies this
      ensures Valid()
      ensures Decode.Read(val, n, err, pos) == DecodeArrayValue(data, old(pos))
      decreases |data| - pos, 2
    {
      var totalCnt, rn, e := ReadInt();
      if e.Some? || totalCnt > MaxArrayLen {
        return NullValue, rn, e;
      }
      if totalCnt < 0 {
        return NullArray, rn, None;
      }
      val, n, err := ReadElements(totalCnt, rn);
    }

    /**
     * The element loop of readArrayValue: totalCnt values, each stored at
     * the next index; the first element error ends the array.
     */
    method ReadElements(totalCnt: nat, n0: int) returns (val: Value, n: int, err: Option<ReadError>)
      requires Valid()
      modifies this
      ensures Valid()
      ensures Decode.Read(val, n, err, pos) == DecodeElements(data, old(pos), totalCnt, [], n0)
      decreases |data| - pos, 1
    {
      var arrvals: seq<Value> := [];
      var i := 0;
      n := n0;
      ghost var target := DecodeElements(data, pos, totalCnt, [], n0);
      ghost var remaining: nat := totalCnt;
      while i < totalCnt
        invariant Valid() && old(pos) <= pos
        invariant 0 <= i <= totalCnt && remaining == totalCnt - i
        invariant DecodeElements(data, pos, remaining, arrvals, n) == target
        decreases totalCnt - i
      {
        ghost var p := pos;
        var v, vn, ve := ReadValue();
        if ve.Some? {
          DecodeElementsFail(data, p, remaining, arrvals, n, v, vn, ve, pos, target);
          return NullValue, n + vn, ve;
        }
        DecodeElementsStep(data, p, remaining, arrvals, n, v, vn, pos, target);
        remaining := remaining - 1;
        n := n + vn;
        arrvals := arrvals + [v];
        i := i + 1;
      }
      DecodeElementsDone(data, pos, arrvals, n, target);
      return ArrayValue(arrvals), n, None;
    }

    method ReadSimpleValue() returns (val: Value, n: int, err: Option<ReadError>)
      requires Valid()
      modifies this
      ensures Valid()
      ensures Decode.Read(val, n, err, pos) == DecodeTextValue(data, old(pos), SimpleStrings)
    {
      var line;
      line, n, err := ReadLine();
      if err.Some? {
        return NullValue, n, err;
      }
      val := Value(SimpleStrings, 0, line, [], false);
    }

    method ReadErrorsValue() returns (val: Value, n: int, err: Option<ReadError>)
      requires Valid()
      modifies this
      ensures Valid()
      ensures Decode.Read(val, n, err, pos) == DecodeTextValue(data, old(pos), Errors)
    {
      var line;
      line, n, err := ReadLine();
      if err.Some? {
        return NullValue, n, err;
      }
      val := Value(Errors, 0, line, [], false);
    }

    method ReadIntegersValue() returns (val: Value, n: int, err: Option<ReadError>)
      requires Valid()
      modifies this
      ensures Valid()
      ensures Decode.Read(val, n, err, pos) == DecodeIntegersValue(data, old(pos))
    {
      var integer;
      integer, n, err := ReadInt();
      if err.Some? {
        return NullValue, n, err;
      }
      val := Value(Integers, integer, [], [], false);
    }

    method ReadBulkStringsValue() returns (val: Value, n: int, err: Option<ReadError>)
      requires Valid()
      modifies this
      ensures Valid()
      ensures Decode.Read(val, n, err, pos) == DecodeBulkStringsValue(data, old(pos))
    {
      var strLen, rn, e := ReadInt();
      n := rn;
      if e.Some? {
        return NullValue, n, e;
      }
      if strLen < 0 {
        return NullsValue(), n, None;
      }
      if strLen > MaxBulkLen {
        return NullValue, n, Some(Protocol(InvalidBulkLength));
      }
      ghost var start := pos;
      DecodeBulkAfterLength(data, old(pos), strLen as nat, n, start);
      var bulk;
      bulk, rn, e := ReadFull(strLen + 2);
      n := n + rn;
      if e.Some? {
        assert |data| < start + strLen + 2 && pos == |data|;
        return NullValue, n, e;
      }
      assert start + strLen + 2 <= |data| && pos == start + strLen + 2;
      FramedPayload(data, start, strLen as nat, bulk);
      if bulk[strLen] != CR || bulk[strLen + 1] != LF {
        return NullValue, n, Some(Protocol(InvalidBulkEnding));
      }
      return BulkStringsValue(bulk[..strLen]), n, None;
    }
  }
}

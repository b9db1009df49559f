/**
 * Encoding followed by decoding (pkg/parser/parser.go against
 * pkg/parser/reader.go): every value of the shape the decoder produces is
 * read back from its own encoding, whatever bytes follow it, and the read
 * reports exactly the encoding's length.
 */
module RoundTrip {
  import opened Wrappers
  import opened ByteUtil
  import opened Strconv
  import opened Values
  import opened Encode
  import opened Decode

  /**
   * The values with a wire form that decodes back to them: text without
   * "\r\n", integers, bulk strings up to MaxBulkLen bytes and the null bulk
   * string, arrays of at most MaxArrayLen such values and the null array, with
   * every field the type does not use left at its zero value. The typeless
   * null value that an oversized array count yields without error is not one:
   * its encoding "$-1\r\n" reads back as the null bulk string.
   */
  ghost predicate WireValue(v: Value)
    decreases v, 1
  {
    if v.typ == SimpleStrings || v.typ == Errors then v == Value(v.typ, 0, v.str, [], false) && NoCrlf(v.str)
    else if v.typ == Integers then v == IntegersValue(v.integer)
    else if v.typ == BulkStrings then v == NullsValue() || (v == BulkStringsValue(v.str) && |v.str| <= MaxBulkLen)
    else if v.typ == Arrays then
      v == NullArray || (v == ArrayValue(v.elements) && |v.elements| <= MaxArrayLen && AllWire(v.elements))
    else false
  }

  ghost predicate AllWire(vs: seq<Value>)
    decreases vs, 0
  {
    vs == [] || (WireValue(vs[0]) && AllWire(vs[1..]))
  }

  /** The bytes m appear in data from pos on. */
  ghost predicate At(data: seq<byte>, pos: nat, m: seq<byte>)
    decreases |m|
  {
    pos + |m| <= |data| && (m == [] || (data[pos] == m[0] && At(data, pos + 1, m[1..])))
  }

  /** At, byte by byte. */
  lemma {:induction false} AtIndex(data: seq<byte>, pos: nat, m: seq<byte>)
    ensures At(data, pos, m) <==> pos + |m| <= |data| && forall j | 0 <= j < |m| :: data[pos + j] == m[j]
    decreases |m|
  {
    if m != [] {
      AtIndex(data, pos + 1, m[1..]);
      assert forall j | 1 <= j < |m| :: m[1..][j - 1] == m[j];
    }
  }

  /** A tag byte followed by rest at pos. */
  lemma AtTag(data: seq<byte>, pos: nat, tag: byte, rest: seq<byte>)
    requires At(data, pos, [tag] + rest)
    ensures pos < |data| && data[pos] == tag && At(data, pos + 1, rest)
  {
    assert ([tag] + rest)[1..] == rest;
  }

  /** At, as a slice. */
  lemma AtSlice(data: seq<byte>, pos: nat, m: seq<byte>)
    requires At(data, pos, m)
    ensures pos + |m| <= |data| && data[pos..pos + |m|] == m
  {
    AtIndex(data, pos, m);
    assert forall k | 0 <= k < |m| :: data[pos..pos + |m|][k] == m[k];
  }

  /** Every byte sequence is at the start of itself. */
  lemma AtWhole(m: seq<byte>)
    ensures At(m, 0, m)
  {
    AtIndex(m, 0, m);
  }

  /** Every wire value can be encoded. */
  lemma {:induction false} WireValueMarshals(v: Value)
    requires WireValue(v)
    ensures Marshal(v).Ok?
    decreases v, 1
  {
    if v.typ == Arrays && v != NullArray {
      AllWireMarshals(v.elements);
    }
  }

  /** So can every sequence of them. */
  lemma {:induction false} AllWireMarshals(vs: seq<Value>)
    requires AllWire(vs)
    ensures MarshalAll(vs).Ok?
    decreases vs, 0
  {
    if vs != [] {
      WireValueMarshals(vs[0]);
      AllWireMarshals(vs[1..]);
    }
  }

  /** A prefix of m at pos is at pos; so is the suffix of m at its offset. */
  lemma AtParts(data: seq<byte>, pos: nat, a: seq<byte>, b: seq<byte>)
    requires At(data, pos, a + b)
    ensures At(data, pos, a) && At(data, pos + |a|, b)
  {
    AtIndex(data, pos, a + b);
    AtIndex(data, pos, a);
    AtIndex(data, pos + |a|, b);
    forall j | 0 <= j < |a| ensures data[pos + j] == a[j] {
      assert (a + b)[j] == a[j];
    }
    forall j | 0 <= j < |b| ensures data[pos + |a| + j] == b[j] {
      assert (a + b)[|a| + j] == b[j];
    }
  }

  /** The first "\r\n" from pos is the one after s, when s holds none of its own. */
  lemma {:induction false} CrlfFromOf(data: seq<byte>, pos: nat, s: seq<byte>)
    requires At(data, pos, s + CRLF) && NoCrlf(s)
    ensures CrlfFrom(data, pos) == Some(pos + |s|)
    decreases |s|
  {
    var m := s + CRLF;
    if s == [] {
      assert m[1..] == [LF];
    } else {
      assert m[1..] == s[1..] + CRLF;
      assert NoCrlf(s[1..]) by {
        forall i | 0 <= i < |s[1..]| ensures !CrlfAt(s[1..], i) {
          assert !CrlfAt(s, i + 1);
        }
      }
      assert data[pos + 1] == m[1];
      assert !CrlfAt(s, 0);
      CrlfFromOf(data, pos + 1, s[1..]);
    }
  }

  /** readLine on a line s with no "\r\n" of its own, followed by CRLF. */
  lemma DecodeLineOf(data: seq<byte>, pos: nat, s: seq<byte>)
    requires At(data, pos, s + CRLF) && NoCrlf(s)
    ensures DecodeLine(data, pos) == Line(s, |s| + 2, None, pos + |s| + 2)
  {
    CrlfFromOf(data, pos, s);
    AtLineSlice(data, pos, s);
    DecodeLineFound(data, pos, pos + |s| + 2);
  }

  /** The line s in front of a CRLF at pos, as a slice of data. */
  lemma AtLineSlice(data: seq<byte>, pos: nat, s: seq<byte>)
    requires At(data, pos, s + CRLF)
    ensures pos + |s| + 2 <= |data| && data[pos..pos + |s|] == s
  {
    AtParts(data, pos, s, CRLF);
    AtSlice(data, pos, s);
  }

  /** readInt on the decimal form of i followed by CRLF. */
  lemma DecodeIntOf(data: seq<byte>, pos: nat, i: int64)
    requires At(data, pos, FormatInt(i) + CRLF)
    ensures DecodeInt(data, pos) == IntLine(i, |FormatInt(i)| + 2, None, pos + |FormatInt(i)| + 2)
  {
    FormatIntNoNewline(i);
    DecodeLineOf(data, pos, FormatInt(i));
    FormatIntParseInt(i);
  }

  /** "$-1\r\n" and "*-1\r\n" are a tag, the decimal form of -1 and CRLF. */
  lemma NullBytesShape()
    ensures NullBulkBytes == [BulkStrings] + (FormatInt(-1) + CRLF)
    ensures NullArrayBytes == [Arrays] + (FormatInt(-1) + CRLF)
  {
  }

  /** A non-null bulk string, read back after its tag. */
  lemma DecodeBulkOf(data: seq<byte>, pos: nat, s: seq<byte>)
    requires |s| <= MaxBulkLen
    requires At(data, pos, (FormatInt(|s|) + CRLF) + (s + CRLF))
    ensures var k := |FormatInt(|s|)| + 2 + |s| + 2;
      DecodeBulkStringsValue(data, pos) == Read(BulkStringsValue(s), k, None, pos + k)
  {
    var len := FormatInt(|s|);
    var start := pos + |len| + 2;
    assert At(data, pos, len + CRLF) && At(data, start, s + CRLF) by {
      AtParts(data, pos, len + CRLF, s + CRLF);
      assert pos + |len + CRLF| == start;
    }
    assert DecodeInt(data, pos) == IntLine(|s|, |len| + 2, None, start) by {
      DecodeIntOf(data, pos, |s|);
    }
    assert start + |s| + 2 <= |data| && data[start..start + |s|] == s
      && data[start + |s|] == CR && data[start + |s| + 1] == LF by {
      AtParts(data, start, s, CRLF);
      AtSlice(data, start, s);
      AtIndex(data, start + |s|, CRLF);
      assert data[start + |s|] == CRLF[0] && data[start + |s| + 1] == CRLF[1];
    }
    DecodeBulkFound(data, pos, s, |len| + 2, start);
  }

  /** The null bulk string, read back after its tag. */
  lemma DecodeNullBulkOf(data: seq<byte>, pos: nat)
    requires At(data, pos, FormatInt(-1) + CRLF)
    ensures DecodeBulkStringsValue(data, pos) == Read(NullsValue(), 4, None, pos + 4)
  {
    DecodeIntOf(data, pos, -1);
  }

  /** The null array, read back after its tag. */
  lemma DecodeNullArrayOf(data: seq<byte>, pos: nat)
    requires At(data, pos, FormatInt(-1) + CRLF)
    ensures DecodeArrayValue(data, pos) == Read(NullArray, 4, None, pos + 4)
  {
    DecodeIntOf(data, pos, -1);
  }

  /**
   * Wire values laid out one after another from pos to end: each one's own
   * encoding is in data at the offset where the previous one ends.
   */
  ghost predicate LaidOut(data: seq<byte>, pos: nat, vs: seq<Value>, end: nat)
    decreases vs
  {
    pos <= |data| &&
    if vs == [] then end == pos
    else
      WireValue(vs[0]) && Marshal(vs[0]).Ok? && At(data, pos, Marshal(vs[0]).value)
      && LaidOut(data, pos + |Marshal(vs[0]).value|, vs[1..], end)
  }

  /** The encoding of a sequence of wire values is their encodings laid out one after another. */
  lemma {:induction false} AllWireLaidOut(data: seq<byte>, pos: nat, vs: seq<Value>, body: seq<byte>)
    requires AllWire(vs) && MarshalAll(vs) == Ok(body) && At(data, pos, body)
    ensures LaidOut(data, pos, vs, pos + |body|)
    decreases vs
  {
    if vs != [] {
      var head, tail := Marshal(vs[0]).value, MarshalAll(vs[1..]).value;
      AtParts(data, pos, head, tail);
      AllWireLaidOut(data, pos + |head|, vs[1..], tail);
    }
  }

  /** Moving the head of vs onto the end of acc keeps acc + vs. */
  lemma ShiftHead(acc: seq<Value>, vs: seq<Value>)
    requires vs != []
    ensures (acc + [vs[0]]) + vs[1..] == acc + vs
  {
  }

  /**
   * Wire values laid out from pos: the element loop reads them back in order
   * after acc and adds every byte up to end to its count.
   */
  lemma {:induction false} DecodeLaidOut(data: seq<byte>, pos: nat, vs: seq<Value>, end: nat, acc: seq<Value>, n: int)
    requires LaidOut(data, pos, vs, end)
    ensures pos <= end <= |data|
    ensures DecodeElements(data, pos, |vs|, acc, n) == Read(ArrayValue(acc + vs), n + (end - pos), None, end)
    decreases vs, 2
  {
    if vs == [] {
      DecodeElementsDone(data, pos, acc, n, DecodeElements(data, pos, 0, acc, n));
      assert acc + vs == acc;
    } else {
      var len := |Marshal(vs[0]).value|;
      DecodeMarshal(data, pos, vs[0]);
      DecodeElementsStep(data, pos, |vs|, acc, n, vs[0], len, pos + len, DecodeElements(data, pos, |vs|, acc, n));
      DecodeLaidOut(data, pos + len, vs[1..], end, acc + [vs[0]], n + len);
      ShiftHead(acc, vs);
    }
  }

  /** A non-null array of wire values, read back after its tag. */
  lemma {:induction false} DecodeArrayOf(data: seq<byte>, pos: nat, es: seq<Value>, body: seq<byte>, target: Read)
    requires |es| <= MaxArrayLen && AllWire(es) && MarshalAll(es) == Ok(body)
    requires At(data, pos, (FormatInt(|es|) + CRLF) + body)
    requires DecodeArrayValue(data, pos) == target
    ensures var k := |FormatInt(|es|)| + 2 + |body|;
      target == Read(ArrayValue(es), k, None, pos + k)
    decreases es, 4
  {
    var cn, start := CountLineOf(data, pos, |es|, body);
    AllWireLaidOut(data, start, es, body);
    ArrayOfLaidOut(data, pos, es, cn, start, start + |body|, target);
  }

  /** A count line for es, then es laid out: the array es, counting every byte. */
  lemma {:induction false} ArrayOfLaidOut(data: seq<byte>, pos: nat, es: seq<Value>, cn: int, start: nat, end: nat, target: Read)
    requires pos <= |data| && |es| <= MaxArrayLen
    requires DecodeInt(data, pos) == IntLine(|es|, cn, None, start)
    requires LaidOut(data, start, es, end)
    requires DecodeArrayValue(data, pos) == target
    ensures target == Read(ArrayValue(es), cn + (end - start), None, end)
    decreases es, 3
  {
    DecodeArrayCount(data, pos, |es|, cn, start, target);
    DecodeLaidOut(data, start, es, end, [], cn);
    assert [] + es == es;
  }

  /** The count line of an array encoding, read by readInt, leaves the stream at the elements. */
  lemma CountLineOf(data: seq<byte>, pos: nat, count: nat, body: seq<byte>) returns (cn: nat, start: nat)
    requires count <= MaxArrayLen
    requires At(data, pos, (FormatInt(count) + CRLF) + body)
    ensures cn == |FormatInt(count)| + 2 && start == pos + cn
    ensures DecodeInt(data, pos) == IntLine(count, cn, None, start)
    ensures At(data, start, body)
  {
    var len := FormatInt(count);
    cn := |len| + 2;
    start := pos + cn;
    AtParts(data, pos, len + CRLF, body);
    assert pos + |len + CRLF| == start;
    DecodeIntOf(data, pos, count);
  }

  /** readValue: the tag byte at pos, then the reader for it from pos + 1. */
  lemma DecodeValueTagged(data: seq<byte>, pos: nat, r: Read)
    requires pos < |data| && IsTag(data[pos])
    requires r == (
        if data[pos] == Arrays then DecodeArrayValue(data, pos + 1)
        else if data[pos] == Errors then DecodeTextValue(data, pos + 1, Errors)
        else if data[pos] == SimpleStrings then DecodeTextValue(data, pos + 1, SimpleStrings)
        else if data[pos] == Integers then DecodeIntegersValue(data, pos + 1)
        else DecodeBulkStringsValue(data, pos + 1))
    ensures DecodeValue(data, pos) == Read(r.val, 1 + r.n, r.err, r.next)
  {
  }

  /** A tagged line, and what follows it, regrouped as the tag and then the rest. */
  lemma TaggedLineShape(tag: byte, line: seq<byte>, rest: seq<byte>)
    ensures TaggedLine(tag, line) == [tag] + (line + CRLF)
    ensures TaggedLine(tag, line) + rest == [tag] + ((line + CRLF) + rest)
  {
  }

  /** A bulk frame regrouped as the tag, the length line and the payload line. */
  lemma BulkFrameShape(s: seq<byte>)
    ensures BulkFrame(s) == [BulkStrings] + ((FormatInt(|s|) + CRLF) + (s + CRLF))
  {
    TaggedLineShape(BulkStrings, FormatInt(|s|), s);
  }

  /** A simple string or an error, read back from its encoding m. */
  lemma DecodeTextRound(data: seq<byte>, pos: nat, v: Value, m: seq<byte>)
    requires (v.typ == SimpleStrings || v.typ == Errors) && WireValue(v)
    requires Marshal(v) == Ok(m) && At(data, pos, m)
    ensures DecodeValue(data, pos) == Read(v, |m|, None, pos + |m|)
  {
    TaggedLineShape(v.typ, v.str, []);
    AtTag(data, pos, v.typ, v.str + CRLF);
    DecodeLineOf(data, pos + 1, v.str);
    DecodeValueTagged(data, pos, DecodeTextValue(data, pos + 1, v.typ));
  }

  /** An integer, read back from its encoding m. */
  lemma DecodeIntegerRound(data: seq<byte>, pos: nat, v: Value, m: seq<byte>)
    requires v.typ == Integers && WireValue(v)
    requires Marshal(v) == Ok(m) && At(data, pos, m)
    ensures DecodeValue(data, pos) == Read(v, |m|, None, pos + |m|)
  {
    TaggedLineShape(Integers, FormatInt(v.integer), []);
    AtTag(data, pos, Integers, FormatInt(v.integer) + CRLF);
    DecodeIntOf(data, pos + 1, v.integer);
    DecodeValueTagged(data, pos, DecodeIntegersValue(data, pos + 1));
  }

  /** A bulk string, null or not, read back from its encoding m. */
  lemma DecodeBulkRound(data: seq<byte>, pos: nat, v: Value, m: seq<byte>)
    requires v.typ == BulkStrings && WireValue(v)
    requires Marshal(v) == Ok(m) && At(data, pos, m)
    ensures DecodeValue(data, pos) == Read(v, |m|, None, pos + |m|)
  {
    if v.isNull {
      assert v == NullsValue() && m == NullBulkBytes;
      DecodeNullBulkRound(data, pos);
    } else {
      assert v == BulkStringsValue(v.str) && |v.str| <= MaxBulkLen;
      DecodeTextBulkRound(data, pos, v.str, m);
    }
  }

  /** The null bulk string, read back from "$-1\r\n". */
  lemma DecodeNullBulkRound(data: seq<byte>, pos: nat)
    requires At(data, pos, NullBulkBytes)
    ensures DecodeValue(data, pos) == Read(NullsValue(), 5, None, pos + 5)
  {
    NullBytesShape();
    AtTag(data, pos, BulkStrings, FormatInt(-1) + CRLF);
    DecodeNullBulkOf(data, pos + 1);
    DecodeValueTagged(data, pos, DecodeBulkStringsValue(data, pos + 1));
  }

  /** A non-null bulk string, read back from its encoding m. */
  lemma DecodeTextBulkRound(data: seq<byte>, pos: nat, s: seq<byte>, m: seq<byte>)
    requires |s| <= MaxBulkLen
    requires Marshal(BulkStringsValue(s)) == Ok(m) && At(data, pos, m)
    ensures DecodeValue(data, pos) == Read(BulkStringsValue(s), |m|, None, pos + |m|)
  {
    var len := FormatInt(|s|);
    BulkFrameShape(s);
    AtTag(data, pos, BulkStrings, (len + CRLF) + (s + CRLF));
    DecodeBulkOf(data, pos + 1, s);
    DecodeValueTagged(data, pos, DecodeBulkStringsValue(data, pos + 1));
  }

  /** An array, null or not, read back from its encoding m. */
  lemma {:induction false} DecodeArrayRound(data: seq<byte>, pos: nat, v: Value, m: seq<byte>)
    requires v.typ == Arrays && WireValue(v)
    requires Marshal(v) == Ok(m) && At(data, pos, m)
    ensures DecodeValue(data, pos) == Read(v, |m|, None, pos + |m|)
    decreases v, 3
  {
    if v.isNull {
      NullBytesShape();
      AtTag(data, pos, Arrays, FormatInt(-1) + CRLF);
      DecodeNullArrayOf(data, pos + 1);
    } else {
      var body := MarshalAll(v.elements).value;
      var len := FormatInt(|v.elements|);
      TaggedLineShape(Arrays, len, body);
      AtTag(data, pos, Arrays, (len + CRLF) + body);
      DecodeArrayOf(data, pos + 1, v.elements, body, DecodeArrayValue(data, pos + 1));
    }
    DecodeValueTagged(data, pos, DecodeArrayValue(data, pos + 1));
  }

  /**
   * The round trip: a wire value encodes, and decoding from the start of its
   * encoding gives it back and counts exactly the encoding's bytes, whatever
   * follows in the stream.
   */
  lemma {:induction false} DecodeMarshal(data: seq<byte>, pos: nat, v: Value)
    requires WireValue(v)
    ensures Marshal(v).Ok?
    ensures At(data, pos, Marshal(v).value) ==>
      DecodeValue(data, pos) == Read(v, |Marshal(v).value|, None, pos + |Marshal(v).value|)
    decreases v, 4
  {
    WireValueMarshals(v);
    var m := Marshal(v).value;
    if At(data, pos, m) {
      if v.typ == SimpleStrings || v.typ == Errors {
        DecodeTextRound(data, pos, v, m);
      } else if v.typ == Integers {
        DecodeIntegerRound(data, pos, v, m);
      } else if v.typ == BulkStrings {
        DecodeBulkRound(data, pos, v, m);
      } else {
        DecodeArrayRound(data, pos, v, m);
      }
    }
  }

  /**
   * The null bulk string and the empty bulk string have different
   * encodings, and each decodes to itself: null is never confused with empty.
   */
  lemma NullBulkIsNotEmptyBulk()
    ensures Marshal(NullsValue()) == Ok(NullBulkBytes)
    ensures Marshal(BulkStringsValue([])).Ok? && Marshal(BulkStringsValue([])).value != NullBulkBytes
    ensures DecodeValue(NullBulkBytes, 0).val.IsNull()
    ensures !DecodeValue(Marshal(BulkStringsValue([])).value, 0).val.IsNull()
  {
    AtWhole(NullBulkBytes);
    DecodeMarshal(NullBulkBytes, 0, NullsValue());
    var e := Marshal(BulkStringsValue([])).value;
    AtWhole(e);
    DecodeMarshal(e, 0, BulkStringsValue([]));
    assert |e| == 6;
  }

  /** Likewise the null array and the empty array. */
  lemma NullArrayIsNotEmptyArray()
    ensures Marshal(NullArray) == Ok(NullArrayBytes)
    ensures Marshal(ArrayValue([])).Ok? && Marshal(ArrayValue([])).value != NullArrayBytes
    ensures DecodeValue(NullArrayBytes, 0).val.IsNull()
    ensures !DecodeValue(Marshal(ArrayValue([])).value, 0).val.IsNull()
  {
    AtWhole(NullArrayBytes);
    DecodeMarshal(NullArrayBytes, 0, NullArray);
    var e := Marshal(ArrayValue([])).value;
    AtWhole(e);
    DecodeMarshal(e, 0, ArrayValue([]));
    assert |e| == 4;
  }
}

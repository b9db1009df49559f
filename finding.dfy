/**
 * readArrayValue as written (pkg/parser/reader.go, lines 102-110): the
 * element slice is made with length 0 and each element is stored with
 * `arrvals[i] = val`, which is out of range for every i and makes the Go
 * runtime panic. Decode.DecodeArrayValue and Reader.ReadArrayValue model the
 * evident intent instead, appending each element in turn.
 */
module ArrayFinding {
  import opened Wrappers
  import opened ByteUtil
  import opened Strconv
  import opened Values
  import opened Encode
  import opened Decode
  import opened RoundTrip

  /** How a read ends: with the Go function's results, or with a runtime panic. */
  datatype Outcome = Returned(r: Read) | Panicked

  /**
   * The element loop as written: element i is stored at index i of arrvals,
   * a slice of fixed length; an index past its end panics.
   */
  function ElementsAsWritten(data: seq<byte>, pos: nat, i: nat, total: nat, arrvals: seq<Value>, n: int): (o: Outcome)
    requires pos <= |data| && i <= total
    ensures o.Returned? && o.r.err.None? ==> o.r.val == ArrayValue(o.r.val.elements) && |o.r.val.elements| == |arrvals|
    decreases total - i
  {
    if i == total then Returned(Read(ArrayValue(arrvals), n, None, pos))
    else
      var r := DecodeValue(data, pos);
      if r.err.Some? then Returned(Read(NullValue, n + r.n, r.err, r.next))
      else if i >= |arrvals| then Panicked
      else ElementsAsWritten(data, r.next, i + 1, total, arrvals[i := r.val], n + r.n)
  }

  /** readArrayValue as written: the element slice starts with length 0. */
  function DecodeArrayAsWritten(data: seq<byte>, pos: nat): (o: Outcome)
    requires pos <= |data|
    // the only array read back without error or panic has no elements
    ensures o.Returned? && o.r.err.None? ==> o.r.val.Array() == []
  {
    var c := DecodeInt(data, pos);
    if c.err.Some? || c.i > MaxArrayLen then Returned(Read(NullValue, c.n, c.err, c.next))
    else if c.i < 0 then Returned(Read(NullArray, c.n, None, c.next))
    else ElementsAsWritten(data, c.next, 0, c.i, [], c.n)
  }

  /**
   * As written, an array whose count is positive and whose first element
   * reads without error always panics.
   */
  lemma ArrayAsWrittenPanics(data: seq<byte>, pos: nat)
    requires pos <= |data|
    requires DecodeInt(data, pos).err.None? && 1 <= DecodeInt(data, pos).i <= MaxArrayLen
    requires DecodeValue(data, DecodeInt(data, pos).next).err.None?
    ensures DecodeArrayAsWritten(data, pos) == Panicked
  {
  }

  /**
   * Whenever the code as written returns at all, it returns what the
   * corrected readArrayValue returns: the empty array, the count line's
   * outcome, or the first element's error.
   */
  lemma ArrayAsWrittenReturnsCorrected(data: seq<byte>, pos: nat)
    requires pos <= |data|
    ensures DecodeArrayAsWritten(data, pos).Returned? ==> DecodeArrayAsWritten(data, pos).r == DecodeArrayValue(data, pos)
  {
    var c := DecodeInt(data, pos);
    if c.err.None? && 0 < c.i <= MaxArrayLen {
      var r := DecodeValue(data, c.next);
      if r.err.Some? {
        DecodeElementsFail(data, c.next, c.i, [], c.n, r.val, r.n, r.err, r.next, DecodeElements(data, c.next, c.i, [], c.n));
      }
    }
  }

  /**
   * Every non-empty array that the encoder writes makes the code as written
   * panic, while the corrected reader gives the array back: for instance
   * "*1\r\n:1\r\n", the array holding the integer 1.
   */
  lemma EncodedArrayPanicsAsWritten(v: Value)
    requires WireValue(v) && v.typ == Arrays && !v.isNull && |v.elements| >= 1
    ensures Marshal(v).Ok?
    ensures var m := Marshal(v).value;
      && DecodeValue(m, 0) == Read(v, |m|, None, |m|)
      && 1 <= |m| && m[0] == Arrays && DecodeArrayAsWritten(m, 1) == Panicked
  {
    WireValueMarshals(v);
    var m := Marshal(v).value;
    AtWhole(m);
    DecodeMarshal(m, 0, v);
    FirstElementReads(m, v);
    ArrayAsWrittenPanics(m, 1);
  }

  /**
   * In the encoding m of a non-empty array, the count line after the tag
   * reads back as the element count, and the first element after it reads
   * without error.
   */
  lemma FirstElementReads(m: seq<byte>, v: Value)
    requires WireValue(v) && v.typ == Arrays && !v.isNull && |v.elements| >= 1
    requires Marshal(v) == Ok(m)
    ensures 1 <= |m| && m[0] == Arrays
    ensures DecodeInt(m, 1).err.None? && DecodeInt(m, 1).i == |v.elements|
    ensures DecodeValue(m, DecodeInt(m, 1).next).err.None?
  {
    var es := v.elements;
    var body := MarshalAll(es).value;
    TaggedLineShape(Arrays, FormatInt(|es|), body);
    AtWhole(m);
    AtTag(m, 0, Arrays, (FormatInt(|es|) + CRLF) + body);
    var cn, start := CountLineOf(m, 1, |es|, body);
    SplitHead(m, start, es, body);
  }

  /** The first of several encodings laid end to end is read back without error. */
  lemma SplitHead(data: seq<byte>, pos: nat, vs: seq<Value>, body: seq<byte>)
    requires vs != [] && AllWire(vs) && MarshalAll(vs) == Ok(body) && At(data, pos, body)
    ensures pos <= |data| && DecodeValue(data, pos).err.None?
  {
    AtParts(data, pos, Marshal(vs[0]).value, MarshalAll(vs[1..]).value);
    DecodeMarshal(data, pos, vs[0]);
  }

  /** The instance named above: [1] is a wire value with one element. */
  lemma OneIntegerArray()
    ensures WireValue(ArrayValue([IntegersValue(1)]))
    ensures Marshal(ArrayValue([IntegersValue(1)])) == Ok([Arrays, 49, CR, LF, Integers, 49, CR, LF])
  {
    var one := IntegersValue(1);
    assert FormatInt(1) == [49];
    assert [one][1..] == [];
    assert Marshal(one) == Ok([Integers, 49, CR, LF]) by {
      assert TaggedLine(Integers, [49]) == [Integers, 49, CR, LF];
    }
    assert MarshalAll([one]) == Ok([Integers, 49, CR, LF]) by {
      assert [Integers, 49, CR, LF] + [] == [Integers, 49, CR, LF];
    }
    assert TaggedLine(Arrays, [49]) + [Integers, 49, CR, LF] == [Arrays, 49, CR, LF, Integers, 49, CR, LF];
  }
}

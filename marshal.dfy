/**
 * The encoder (pkg/parser/parser.go, lines 160-259): the exact wire bytes of
 * each kind of value, first as specification functions and then as the
 * buffer-filling methods that the Go code runs.
 */
module Encode {
  import opened Wrappers
  import opened ByteUtil
  import opened Strconv
  import opened Values

  /** "$-1\r\n", the null bulk string (and any null value without a type). */
  const NullBulkBytes: seq<byte> := Ascii("$-1\r\n")
  /** "*-1\r\n", the null array. */
  const NullArrayBytes: seq<byte> := Ascii("*-1\r\n")
  const UnknownType: seq<byte> := Ascii("unknown resp type")

  /** A value the encoder accepts: it has one of the five types or is null, and so do its elements. */
  predicate Marshallable(v: Value)
    decreases v, 1
  {
    if v.typ == Arrays then v.isNull || AllMarshallable(v.elements)
    else IsTag(v.typ) || v.isNull
  }

  predicate AllMarshallable(vs: seq<Value>)
    decreases vs, 0
  {
    forall i | 0 <= i < |vs| :: Marshallable(vs[i])
  }

  /** tag, body, CRLF: the layout of simple strings, errors and integers. */
  function TaggedLine(tag: byte, body: seq<byte>): (r: seq<byte>)
    ensures |r| == 3 + |body| && r[0] == tag && r[1..1 + |body|] == body
    ensures r[1 + |body|..] == CRLF
  {
    [tag] + body + CRLF
  }

  /** "$", the decimal length, CRLF, the bytes, CRLF. */
  function BulkFrame(s: seq<byte>): (r: seq<byte>)
    ensures |r| == 3 + |FormatInt(|s|)| + |s| + 2
    ensures r[..3 + |FormatInt(|s|)|] == TaggedLine(BulkStrings, FormatInt(|s|))
    ensures r[3 + |FormatInt(|s|)|..] == s + CRLF
  {
    TaggedLine(BulkStrings, FormatInt(|s|)) + s + CRLF
  }

  /**
   * marshalRESP: the wire form of v, or the error "unknown resp type" for a
   * non-null value (at any depth) whose type is none of the five.
   */
  function Marshal(v: Value): (r: Result<seq<byte>, seq<byte>>)
    ensures r.Err? ==> r.error == UnknownType
    // a whole frame: the type's tag byte ("$" for a null of no type), at least three bytes
    ensures r.Ok? ==> 3 <= |r.value| && r.value[0] == (if IsTag(v.typ) then v.typ else BulkStrings)
    decreases v, 1
  {
    if v.typ == SimpleStrings || v.typ == Errors then Ok(TaggedLine(v.typ, v.str))
    else if v.typ == Integers then Ok(TaggedLine(Integers, FormatInt(v.integer)))
    else if v.typ == BulkStrings then Ok(if v.isNull then NullBulkBytes else BulkFrame(v.str))
    else if v.typ == Arrays then
      if v.isNull then Ok(NullArrayBytes)
      else
        match MarshalAll(v.elements)
        case Err(e) => Err(e)
        case Ok(body) => Ok(TaggedLine(Arrays, FormatInt(|v.elements|)) + body)
    else if v.isNull then Ok(NullBulkBytes)
    else Err(UnknownType)
  }

  /** The encodings of vs concatenated in order; the first failure fails them all. */
  function MarshalAll(vs: seq<Value>): (r: Result<seq<byte>, seq<byte>>)
    ensures r.Err? ==> r.error == UnknownType
    ensures vs == [] ==> r == Ok([])
    ensures r.Ok? ==> 3 * |vs| <= |r.value|
    ensures r.Ok? && vs != [] ==> r.value[0] == (if IsTag(vs[0].typ) then vs[0].typ else BulkStrings)
    decreases vs, 0
  {
    if vs == [] then Ok([])
    else
      match Marshal(vs[0])
      case Err(e) => Err(e)
      case Ok(head) =>
        match MarshalAll(vs[1..])
        case Err(e) => Err(e)
        case Ok(tail) => Ok(head + tail)
  }

  /**
   * The encoder fails exactly on a non-null value of none of the five types,
   * at any depth of nesting.
   */
  lemma {:induction false} MarshalAccepts(v: Value)
    ensures Marshal(v).Ok? <==> Marshallable(v)
    decreases v, 1
  {
    if v.typ == Arrays && !v.isNull {
      MarshalAllAccepts(v.elements);
    }
  }

  /** A sequence of values encodes exactly when each of them does. */
  lemma {:induction false} MarshalAllAccepts(vs: seq<Value>)
    ensures MarshalAll(vs).Ok? <==> AllMarshallable(vs)
    decreases vs, 0
  {
    if vs != [] {
      MarshalAccepts(vs[0]);
      MarshalAllAccepts(vs[1..]);
      assert forall i | 1 <= i < |vs| :: vs[i] == vs[1..][i - 1];
    }
  }

  /** acc in front of a successful encoding; a failure passes through. */
  function Prefixed(acc: seq<byte>, r: Result<seq<byte>, seq<byte>>): Result<seq<byte>, seq<byte>> {
    match r
    case Ok(b) => Ok(acc + b)
    case Err(e) => Err(e)
  }

  /** Go's copy(a[at:], b): b is written over a from index at; the rest of a is kept. */
  method CopyInto(a: array<byte>, at: nat, b: seq<byte>)
    requires at + |b| <= a.Length
    modifies a
    ensures a[..at] == old(a[..at])
    ensures a[at..at + |b|] == b
    ensures a[at + |b|..] == old(a[at + |b|..])
  {
    var i := 0;
    while i < |b|
      invariant 0 <= i <= |b|
      invariant a[..at] == old(a[..at])
      invariant a[at..at + i] == b[..i]
      invariant a[at + |b|..] == old(a[at + |b|..])
    {
      a[at + i] := b[i];
      i := i + 1;
    }
  }

  /** copy(a[at:], b) followed by a[at+|b|] = '\r' and a[at+|b|+1] = '\n'. */
  method PutLine(a: array<byte>, at: nat, b: seq<byte>)
    requires at + |b| + 2 <= a.Length
    modifies a
    ensures a[..at] == old(a[..at])
    ensures a[at..at + |b| + 2] == b + CRLF
    ensures a[at + |b| + 2..] == old(a[at + |b| + 2..])
  {
    CopyInto(a, at, b);
    a[at + |b|] := CR;
    a[at + |b| + 1] := LF;
    assert a[at..at + |b| + 2] == a[at..at + |b|] + [a[at + |b|], a[at + |b| + 1]];
  }

  /** A fresh buffer of 3 + |b| bytes filled with tag, b and CRLF. */
  method FillTaggedLine(tag: byte, b: seq<byte>) returns (bb: seq<byte>)
    ensures bb == TaggedLine(tag, b)
  {
    var buf := new byte[3 + |b|];
    buf[0] := tag;
    PutLine(buf, 1, b);
    bb := buf[..];
    assert bb == [bb[0]] + bb[1..];
  }

  method MarshalSimpleStringsRESP(v: Value) returns (bb: seq<byte>)
    ensures bb == TaggedLine(SimpleStrings, v.str)
  {
    bb := FillTaggedLine(SimpleStrings, v.str);
  }

  method MarshalErrorsRESP(v: Value) returns (bb: seq<byte>)
    ensures bb == TaggedLine(Errors, v.str)
  {
    bb := FillTaggedLine(Errors, v.str);
  }

  method MarshalIntegersRESP(v: Value) returns (bb: seq<byte>)
    ensures bb == TaggedLine(Integers, FormatInt(v.integer))
  {
    bb := FillTaggedLine(Integers, FormatInt(v.integer));
  }

  /**
   * A buffer holding '$', then the length digits and CRLF, then s and CRLF,
   * is the bulk frame of s.
   */
  lemma BulkFrameParts(bb: seq<byte>, head: seq<byte>, s: seq<byte>)
    requires |bb| == 3 + |FormatInt(|s|)| + |s| + 2
    requires head == bb[..3 + |FormatInt(|s|)|]
    requires head[..1] == [BulkStrings] && head[1..] == FormatInt(|s|) + CRLF
    requires bb[3 + |FormatInt(|s|)|..] == s + CRLF
    ensures bb == BulkFrame(s)
  {
    assert head == head[..1] + head[1..];
    assert bb == head + bb[3 + |FormatInt(|s|)|..];
  }

  /** The bulk frame built in one buffer: header, payload and both CRLFs. */
  method MarshalBulkStringsRESP(v: Value) returns (bb: seq<byte>)
    ensures bb == if v.isNull then NullBulkBytes else BulkFrame(v.str)
  {
    if v.isNull {
      return NullBulkBytes;
    }
    var strLen := FormatInt(|v.str|);
    var h := |strLen|;
    var buf := new byte[1 + h + 2 + |v.str| + 2];
    buf[0] := BulkStrings;
    PutLine(buf, 1, strLen);
    ghost var head := buf[..3 + h];
    assert head[..1] == [BulkStrings] && head[1..] == strLen + CRLF;
    PutLine(buf, 1 + h + 2, v.str);
    bb := buf[..];
    BulkFrameParts(bb, head, v.str);
  }

  /** One element of the array loop: its encoding moves from the pending part to the buffer. */
  lemma MarshalAllStep(vs: seq<Value>, i: nat, buf: seq<byte>, d: seq<byte>)
    requires i < |vs| && Marshal(vs[i]) == Ok(d)
    ensures Prefixed(buf, MarshalAll(vs[i..])) == Prefixed(buf + d, MarshalAll(vs[i + 1..]))
  {
    assert vs[i..][0] == vs[i] && vs[i..][1..] == vs[i + 1..];
    match MarshalAll(vs[i + 1..])
    case Ok(tail) =>
      assert buf + (d + tail) == (buf + d) + tail;
    case Err(_) =>
  }

  /** An element that fails to encode fails the whole array with its error. */
  lemma MarshalAllFail(vs: seq<Value>, i: nat, buf: seq<byte>)
    requires i < |vs| && Marshal(vs[i]).Err?
    ensures Prefixed(buf, MarshalAll(vs[i..])) == Err(Marshal(vs[i]).error)
  {
    assert vs[i..][0] == vs[i];
  }

  /** The array header followed by each element's encoding, stopping at the first failure. */
  method MarshalArraysRESP(v: Value) returns (r: Result<seq<byte>, seq<byte>>)
    requires v.typ == Arrays
    ensures r == Marshal(v)
    decreases v, 0
  {
    if v.isNull {
      return Ok(NullArrayBytes);
    }
    var buf := [Arrays] + FormatInt(|v.elements|) + CRLF;
    var i := 0;
    assert v.elements[0..] == v.elements;
    while i < |v.elements|
      invariant 0 <= i <= |v.elements|
      invariant Marshal(v) == Prefixed(buf, MarshalAll(v.elements[i..]))
    {
      var data := MarshalRESP(v.elements[i]);
      if data.Err? {
        MarshalAllFail(v.elements, i, buf);
        return Err(data.error);
      }
      MarshalAllStep(v.elements, i, buf, data.value);
      buf := buf + data.value;
      i := i + 1;
    }
    assert buf + [] == buf;
    r := Ok(buf);
  }

  /** marshalRESP as the Go code runs it: dispatch on the type tag. */
  method MarshalRESP(v: Value) returns (r: Result<seq<byte>, seq<byte>>)
    ensures r == Marshal(v)
    decreases v, 1
  {
    if v.typ == SimpleStrings {
      var bb := MarshalSimpleStringsRESP(v);
      r := Ok(bb);
    } else if v.typ == Errors {
      var bb := MarshalErrorsRESP(v);
      r := Ok(bb);
    } else if v.typ == Integers {
      var bb := MarshalIntegersRESP(v);
      r := Ok(bb);
    } else if v.typ == BulkStrings {
      var bb := MarshalBulkStringsRESP(v);
      r := Ok(bb);
    } else if v.typ == Arrays {
      r := MarshalArraysRESP(v);
    } else if v.isNull {
      r := Ok(NullBulkBytes);
    } else {
      r := Err(UnknownType);
    }
  }
}

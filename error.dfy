/** The decoder's framing error (pkg/parser/error.go). */
module ParserError {
  import opened ByteUtil

  /** The fixed text every protocol error message starts with. */
  const Prefix: seq<byte> := Ascii("protocol error: ")

  /** ErrorProtocol: malformed framing, described by msg. */
  datatype ErrorProtocol = ErrorProtocol(msg: seq<byte>) {

    /** The error's message: the fixed prefix, then msg, and nothing else. */
    function Error(): (r: seq<byte>)
      ensures |r| == 16 + |msg|
      ensures r[..16] == Prefix
      ensures r[16..] == msg
    {
      Prefix + msg
    }
  }

  /** Two protocol errors print the same message exactly when they are the same error. */
  lemma ErrorInjective(a: ErrorProtocol, b: ErrorProtocol)
    ensures a.Error() == b.Error() <==> a == b
  {
  }
}

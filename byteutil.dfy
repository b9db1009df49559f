/**
 * Bytes and the byte strings of the wire protocol. Go strings and []byte are
 * both modelled as sequences of bytes.
 */
module ByteUtil {

  type byte = b: int | 0 <= b < 0x100

  const CR: byte := 13
  const LF: byte := 10
  const SPACE: byte := 32
  const MINUS: byte := 45
  const PLUS: byte := 43

  /** The two-byte line terminator of the protocol. */
  const CRLF: seq<byte> := [CR, LF]

  /** The bytes of an ASCII literal (every literal in this model is ASCII). */
  function Ascii(s: string): (r: seq<byte>)
    ensures |r| == |s|
  {
    seq(|s|, i requires 0 <= i < |s| => (s[i] as int) % 0x100)
  }

  predicate IsDigit(b: byte) {
    48 <= b <= 57
  }

  /** A CR immediately followed by an LF starts at index i of s. */
  predicate CrlfAt(s: seq<byte>, i: int) {
    0 <= i && i + 1 < |s| && s[i] == CR && s[i + 1] == LF
  }

  /** s contains no "\r\n". */
  predicate NoCrlf(s: seq<byte>) {
    forall i | 0 <= i < |s| :: !CrlfAt(s, i)
  }

  /** s contains neither a CR nor an LF byte. */
  predicate NoNewline(s: seq<byte>) {
    forall i :: 0 <= i < |s| ==> s[i] != CR && s[i] != LF
  }

  lemma NoNewlineNoCrlf(s: seq<byte>)
    requires NoNewline(s)
    ensures NoCrlf(s)
  {
  }

  function UpperByte(b: byte): byte {
    if 97 <= b <= 122 then b - 32 else b
  }

  /**
   * strings.ToUpper, restricted to ASCII case mapping: every lower-case letter
   * a-z becomes its upper-case form and every other byte is kept.
   */
  function ToUpper(s: seq<byte>): (r: seq<byte>)
    ensures |r| == |s|
    ensures forall i :: 0 <= i < |s| ==> r[i] == UpperByte(s[i])
  {
    seq(|s|, i requires 0 <= i < |s| => UpperByte(s[i]))
  }
}

# mock-redis in Dafny

A model of the core of mock-redis, a small Redis-compatible server written in
Go, together with proofs of what it does. The model covers three parts:

- **The RESP2 codec** (`pkg/parser`).
  - The `Value` type with its accessors and reply constructors.
  - The encoder `MarshalRESP`.
  - The streaming decoder `Reader`.
  - The decoder's protocol errors.
- **The command server** (`pkg/server/server.go`).
  - The handler registry, keyed by upper-cased verb.
  - The `handleConn` loop, which reads one value at a time and answers it.
  - The per-connection goroutine that reports a failure with `-ERR unknown error`.
- **The Redis program** (`cmd/redis-server/main.go`). It registers `SET` and `GET` over a shared key-value store.

## Structure

**Decoder**
- `Decode` holds pure functions, one per reader method: `DecodeValue`,
  `DecodeLine`, `DecodeInt` and so on. Each gives back the value, the byte
  count `n` the Go code reports, the error, and where the stream is left.
- `Reader.Reader` is the imperative reader. It is a class over the input
  bytes with a read position, and each method is proved to return exactly
  what the corresponding function says.

**Encoder**
- `Encode` holds `Marshal`, a function, and the Go marshal routines as
  methods. The methods fill a buffer in place, as the Go code does, and are
  proved equal to `Marshal`.

**Properties**
- `DecodeProperties` states the decoder's rules: lengths, counts, errors and order.
- `RoundTrip` proves that decoding the encoding of every value the protocol
  can carry gives that value back, whatever bytes follow it.

**Server and program**
- `Server` models the registry as a class with a map field. It gives
  `handleConn`'s loop both as a method over a connection and as the
  specification function `Serve`, which the method is proved to follow.
- `Redis` models the `SET` and `GET` handlers and proves what a client sees on the wire.
- `Server.Server.HandleConn`, `Redis.ServeSetCommand` and `Redis.ServeGetCommand`
  read commands with the corrected array decoder, which appends each element.
  As written in Go, the array reader panics on every non-empty array whose
  first element reads, and so on every complete command a client sends (see
  "## Findings"); an array whose first element fails to read returns that
  error instead. The code as written is
  modelled separately in `ArrayFinding`.

## Model

| member | source | states |
|---|---|---|
| ByteUtil.ToUpper | pkg/server/server.go:39 | Every byte a-z becomes its upper-case letter, every other byte is kept, and the length is unchanged. |
| Strconv.FormatInt | pkg/parser/parser.go:55 | The decimal text has at least one byte, only digits apart from a leading minus, and the minus appears exactly when the number is negative. |
| Strconv.FormatIntParseInt | pkg/parser/reader.go:82 | Parsing the decimal text of any 64-bit integer gives that integer back, without error. |
| Strconv.AccumulateFormatUint | pkg/parser/reader.go:82 | Reading back the digits of any number in the unsigned 64-bit range gives that number. |
| Strconv.ParseInt | pkg/parser/reader.go:82 | A failed parse reports the input text. A syntax error yields 0. A range error yields the bound of the input's sign: MinInt64 after a leading minus, MaxInt64 otherwise. |
| Strconv.ParseUint | pkg/parser/reader.go:82 | The empty text is a syntax error. A parsed value is at most MaxUint64 and comes from text made only of digits; a syntax error means the text is empty or holds a non-digit. |
| Strconv.Accumulate | pkg/parser/reader.go:82 | A result is at most MaxUint64 and comes from text made only of digits. A syntax error means some byte is not a digit. |
| Strconv.FormatUint | pkg/parser/parser.go:55 | The text is at least one byte long, only digits, with no leading zero when it is longer than one digit. |
| Strconv.ParseIntNoDigits | pkg/parser/reader.go:82 | Text with no digit at all is a syntax error with value 0. |
| Strconv.AccumulateLeadingNonDigit | pkg/parser/reader.go:82 | Text whose first byte is not a digit fails with a syntax error. |
| ParserError.ErrorProtocol.Error | pkg/parser/error.go:9-11 | The message is "protocol error: " followed by exactly the fault's text. |
| ParserError.ErrorInjective | pkg/parser/error.go:9-11 | Two protocol errors print the same message exactly when they are the same error. |
| Decode.ProtocolFaultMessagesDistinct | pkg/parser/reader.go:46 | The decoder's three framing faults all print different messages. |
| Values.Value.String | pkg/parser/parser.go:50-61 | Text types give their bytes. An integer gives text that parses back to it. An array gives a bracketed list. Any other type gives the empty text. |
| Values.Value.Integer | pkg/parser/parser.go:63-71 | An integer gives its value. Every other type gives ParseInt of its String(). |
| Values.Value.Bytes | pkg/parser/parser.go:73-80 | Always the same bytes as String(). |
| Values.Value.IsNull | pkg/parser/parser.go:82-84 | True exactly for null values. |
| Values.Value.Error | pkg/parser/parser.go:86-93 | Present exactly for the Errors type, and then it carries the value's text. |
| Values.Value.Array | pkg/parser/parser.go:95-101 | A non-null array gives its elements. A non-empty result only ever comes from a non-null array. |
| Values.ReplaceNewlineWithSpace | pkg/parser/parser.go:105-112 | Each CR and each LF becomes a space, every other byte is kept, and the result has no line break. |
| Values.SimpleStringsValue | pkg/parser/parser.go:114-119 | A non-null simple string as long as its input: each CR or LF becomes a space and every other byte is kept in place, so the result has no line break. |
| Values.BulkStringsValue | pkg/parser/parser.go:121-126 | A non-null bulk string holding exactly the given bytes. |
| Values.NullsValue | pkg/parser/parser.go:128-133 | A null bulk string. |
| Values.ErrorsValue | pkg/parser/parser.go:135-144 | A non-null error whose Error() is the message, or empty when there is none. |
| Values.IntegersValue | pkg/parser/parser.go:146-151 | A non-null integer holding exactly i. |
| Values.ArrayValue | pkg/parser/parser.go:153-158 | A non-null array whose elements, and so whose Array(), are exactly the given values. |
| Values.BulkStringsValueBytes | pkg/parser/parser.go:73-80 | A bulk string's Bytes() and String() are its bytes. It is not null and has no elements. |
| Values.NullsValueIsNull | pkg/parser/parser.go:128-133 | The null bulk string is null and has no bytes and no elements. |
| Values.IntegersValueInteger | pkg/parser/parser.go:63-66 | An integer value's Integer() is i, and its String() is the decimal text of i. |
| Values.SimpleStringsValueIsOneLine | pkg/parser/parser.go:114-119 | A simple string never contains CRLF, so its encoding is a single line. |
| Values.ErrorsValueKeepsNewlines | pkg/parser/parser.go:135-144 | An error keeps its message as given, line breaks included; nothing strips them. |
| Values.IntegerAgreesWithString | pkg/parser/parser.go:63-71 | For every value, Integer() is ParseInt of String(). |
| Values.IntegerOfNonNumericText | pkg/parser/parser.go:67-69 | A text value with no digit has Integer() 0; the parse error is dropped. |
| Values.IntegerOfDecimalBulk | pkg/parser/parser.go:67-69 | A bulk string holding the decimal text of i has Integer() i. |
| Encode.TaggedLine | pkg/parser/parser.go:184-215 | The line is the tag, then the body, then CRLF. |
| Encode.BulkFrame | pkg/parser/parser.go:222-235 | A "$" line carrying the length, then the payload, then CRLF. |
| Encode.MarshalAccepts | pkg/parser/parser.go:164-182 | Encoding succeeds exactly for values of a known type, null values of no type, and arrays whose elements all encode. |
| Encode.MarshalAllAccepts | pkg/parser/parser.go:250-256 | A list of elements encodes exactly when every element does. |
| Encode.CopyInto | pkg/parser/parser.go:188 | Go's copy: the bytes land at the given offset, and the rest of the buffer is unchanged. |
| Encode.PutLine | pkg/parser/parser.go:188-190 | The body followed by CRLF lands at the given offset, and the rest of the buffer is unchanged. |
| Encode.FillTaggedLine | pkg/parser/parser.go:186-192 | Filling a fresh buffer of length 3+len(b) gives exactly TaggedLine(tag, b). |
| Encode.MarshalSimpleStringsRESP | pkg/parser/parser.go:184-193 | The encoding is "+", the text, then CRLF. |
| Encode.MarshalErrorsRESP | pkg/parser/parser.go:195-204 | The encoding is "-", the text, then CRLF. |
| Encode.MarshalIntegersRESP | pkg/parser/parser.go:206-215 | The encoding is ":", the decimal text, then CRLF. |
| Encode.MarshalBulkStringsRESP | pkg/parser/parser.go:217-236 | The encoding is "$-1\r\n" for null, and otherwise the length line, the payload and CRLF. |
| Encode.MarshalArraysRESP | pkg/parser/parser.go:238-259 | The buffer loop gives Marshal's result: the count line, then every element's encoding in order, or the first element's error. |
| Encode.Marshal | pkg/parser/parser.go:160-182 | The only error is "unknown resp type". Every encoding is at least three bytes and starts with the value's tag byte, or "$" for a null of no type. |
| Encode.MarshalAll | pkg/parser/parser.go:245-256 | The only error is "unknown resp type". No elements encode to no bytes; otherwise the bytes are at least three per element and start with the first element's tag. |
| Encode.MarshalRESP | pkg/parser/parser.go:160-182 | The dispatch on type gives exactly Marshal(v). |
| Decode.CrlfFrom | pkg/parser/reader.go:58-73 | The position found holds a CRLF. |
| Decode.CrlfFromFirst | pkg/parser/reader.go:58-73 | The CRLF found is the first one from the start position; when none is found, there is none at all. |
| Decode.DecodeLine | pkg/parser/reader.go:58-73 | Without a CRLF, the result is io.EOF with n = 0 and the stream consumed. Otherwise n counts the line and its CRLF. |
| Decode.DecodeLineFrame | pkg/parser/reader.go:72 | The bytes consumed are exactly the line followed by CRLF. |
| Decode.DecodeLineNoCrlf | pkg/parser/reader.go:67-72 | A line read never contains CRLF. |
| Decode.DecodeInt | pkg/parser/reader.go:76-88 | n never exceeds the bytes consumed, and equals them on success. |
| Decode.DecodeValue | pkg/parser/reader.go:26-55 | The stream never moves back, and a successful read always consumes at least one byte. |
| Decode.DecodeTextValue | pkg/parser/reader.go:120-142 | Success gives a line value of the given type, with n counting every byte. Failure gives the null value with io.EOF. |
| Decode.DecodeIntegersValue | pkg/parser/reader.go:144-154 | Success gives an integer, with n counting every byte. Failure gives the null value. |
| Decode.DecodeBulkStringsValue | pkg/parser/reader.go:156-189 | Success gives a bulk string, with n counting every byte. Failure gives the null value. |
| Decode.DecodeArrayValue | pkg/parser/reader.go:90-117 | The stream never moves back or past the input. What it returns is stated by DecodeProperties.ArrayCountRules and DecodeProperties.ElementsAreReadInOrder. |
| Decode.DecodeElements | pkg/parser/reader.go:103-116 | The element loop never moves the stream back or past the input. DecodeProperties.ElementsAreReadInOrder and InOrderIsElements state what it returns. |
| Decode.DecodeArrayCount | pkg/parser/reader.go:90-103 | A count line of 0 to 1024*1024 hands over to the element loop, starting from no elements. |
| Decode.DecodeElementsStep | pkg/parser/reader.go:103-111 | An element read without error is appended, and the loop goes on with one fewer to read. |
| Decode.DecodeElementsFail | pkg/parser/reader.go:104-108 | An element that fails ends the array with the null value, that error, and n so far. |
| Decode.DecodeElementsDone | pkg/parser/reader.go:113-116 | With nothing left to read, the result is the array of the elements read. |
| Decode.DecodeValueAccounting | pkg/parser/reader.go:26-55 | On success, n is exactly the number of bytes consumed. On error, the value is the null value. |
| Decode.DecodeArrayAccounting | pkg/parser/reader.go:90-117 | The same accounting for an array. |
| Decode.DecodeElementsAccounting | pkg/parser/reader.go:103-111 | The same accounting for the element loop. |
| Reader.IndexFromFirst | pkg/parser/reader.go:60 | bufio's ReadBytes stops at the first delimiter. |
| Reader.LineMissing | pkg/parser/reader.go:60-62 | Reaching the end without an LF is io.EOF, as DecodeLine says. |
| Reader.LineChunk | pkg/parser/reader.go:64-69 | After a chunk ending in LF, either a CRLF was found or the search for one carries on from there. |
| Reader.LineTurn | pkg/parser/reader.go:59-70 | One turn of readLine's loop agrees with DecodeLine. |
| Reader.Reader.constructor | pkg/parser/reader.go:15-19 | A reader starts at the beginning of its input. |
| Reader.Reader.ReadByte | pkg/parser/reader.go:27-30 | Reads the next byte, or gives io.EOF at the end of input. |
| Reader.Reader.ReadBytes | pkg/parser/reader.go:60 | Reads up to and including the first delimiter, or to the end with io.EOF. |
| Reader.Reader.ReadFull | pkg/parser/reader.go:175 | Reads exactly k bytes. Short input gives io.EOF when nothing was read and io.ErrUnexpectedEOF otherwise. |
| Reader.Reader.Read | pkg/parser/reader.go:21-24 | Returns DecodeValue's value and error, and leaves the stream where DecodeValue says. |
| Reader.Reader.ReadValue | pkg/parser/reader.go:26-55 | Returns exactly DecodeValue's value, n, error and position. |
| Reader.Reader.ReadLine | pkg/parser/reader.go:58-73 | Its loop over ReadBytes chunks gives exactly DecodeLine. |
| Reader.Reader.ReadInt | pkg/parser/reader.go:76-88 | Returns exactly DecodeInt's results. |
| Reader.Reader.ReadArrayValue | pkg/parser/reader.go:90-117 | Returns exactly DecodeArrayValue's results. |
| Reader.Reader.ReadElements | pkg/parser/reader.go:102-116 | Its loop gives exactly DecodeElements, with elements appended in order. |
| Reader.Reader.ReadSimpleValue | pkg/parser/reader.go:120-130 | Returns exactly DecodeTextValue for "+". |
| Reader.Reader.ReadErrorsValue | pkg/parser/reader.go:132-142 | Returns exactly DecodeTextValue for "-". |
| Reader.Reader.ReadIntegersValue | pkg/parser/reader.go:144-154 | Returns exactly DecodeIntegersValue. |
| Reader.Reader.ReadBulkStringsValue | pkg/parser/reader.go:156-189 | Returns exactly DecodeBulkStringsValue. |
| DecodeProperties.IntLineErrors | pkg/parser/reader.go:76-88 | A count or length line fails only with io.EOF or a number error. |
| DecodeProperties.TagReaderNotBare | pkg/parser/reader.go:34-47 | No type-specific reader reports "unknown first byte" after one byte. |
| DecodeProperties.UnknownFirstByteExactly | pkg/parser/reader.go:45-46 | "unknown first byte" after exactly one byte happens if and only if the first byte is not one of the five type tags. |
| DecodeProperties.BulkLengthRules | pkg/parser/reader.go:157-172 | A bad length line is passed on. A negative length is the null bulk string. A length over 512 MiB is "invalid bulk length". |
| DecodeProperties.BulkPayload | pkg/parser/reader.go:174-188 | With the whole payload present, it reads len+2 bytes. It succeeds exactly when they end in CRLF, giving the payload; otherwise it reports "invalid bulk string ending". |
| DecodeProperties.BulkTruncated | pkg/parser/reader.go:174-179 | A short payload consumes the rest of the input: io.EOF if nothing was left, io.ErrUnexpectedEOF otherwise. |
| DecodeProperties.ArrayCountRules | pkg/parser/reader.go:91-100 | A bad count line is passed on. A negative count is the null array. A count over 1024*1024 is the null value with no error. |
| DecodeProperties.IntegerParseFailure | pkg/parser/reader.go:82-85 | A ":" line that does not parse gives the number error and the null value. |
| DecodeProperties.ElementsAreReadInOrder | pkg/parser/reader.go:102-116 | A successful array holds exactly count elements, the i-th being the i-th value read after the count line. |
| DecodeProperties.InOrderIsElements | pkg/parser/reader.go:102-116 | Conversely, count values read back to back make the array of those values. |
| RoundTrip.WireValueMarshals | pkg/parser/parser.go:164-182 | Every value the protocol can carry encodes without error. |
| RoundTrip.CrlfFromOf | pkg/parser/reader.go:58-73 | A line without CRLF, followed by CRLF, is found in full. |
| RoundTrip.DecodeLineOf | pkg/parser/reader.go:58-73 | readLine gives back such a line and consumes it with its CRLF. |
| RoundTrip.DecodeIntOf | pkg/parser/reader.go:76-88 | readInt gives back any 64-bit integer from its decimal line. |
| RoundTrip.DecodeBulkOf | pkg/parser/reader.go:156-189 | A bulk frame decodes to its payload. |
| RoundTrip.AllWireLaidOut | pkg/parser/parser.go:245-256 | The encoding of an element sequence is each element's own encoding, one after another, in order. |
| RoundTrip.DecodeLaidOut | pkg/parser/reader.go:103-116 | Encoded elements laid end to end are read back by the element loop in order, and every byte of them is counted. |
| RoundTrip.DecodeArrayOf | pkg/parser/reader.go:90-117 | An encoded array body decodes to the array. |
| RoundTrip.DecodeMarshal | pkg/parser/parser.go:164-259 | The round trip: decoding from the start of a value's encoding gives the value back and consumes exactly the encoding, whatever follows. |
| RoundTrip.NullBulkIsNotEmptyBulk | pkg/parser/parser.go:217-220 | The null bulk string and the empty bulk string have different encodings, and each decodes to itself. |
| RoundTrip.NullArrayIsNotEmptyArray | pkg/parser/parser.go:238-241 | The null array and the empty array have different encodings, and each decodes to itself. |
| ArrayFinding.ElementsAsWritten | pkg/parser/reader.go:102-111 | The element loop as written: element i is stored into a slice of length 0, which panics. |
| ArrayFinding.DecodeArrayAsWritten | pkg/parser/reader.go:90-117 | readArrayValue as written: whenever it returns an array without error, the array has no elements. |
| ArrayFinding.ArrayAsWrittenPanics | pkg/parser/reader.go:102-111 | As written, a positive count whose first element reads without error always panics. |
| ArrayFinding.ArrayAsWrittenReturnsCorrected | pkg/parser/reader.go:90-117 | Whenever the code as written returns, it returns what the corrected reader returns. |
| ArrayFinding.EncodedArrayPanicsAsWritten | pkg/parser/reader.go:102-111 | Every non-empty array the encoder writes makes the code as written panic, while the corrected reader gives it back. |
| ArrayFinding.OneIntegerArray | pkg/parser/parser.go:238-259 | The array [1] is encoded as "*1\r\n:1\r\n". |
| Server.Verb | pkg/server/server.go:86 | The verb is the first element's String(), upper-cased, of the same length. |
| Server.Classify | pkg/server/server.go:80-105 | No elements means skip. QUIT and PING are chosen exactly when the verb is QUIT or PING, whatever is registered. Any other verb is unknown exactly when no handler is registered under it, and registered exactly when one is. |
| Server.Serve | pkg/server/server.go:70-111 | The loop returns no error only after answering QUIT with "OK" or PING with "PONG". On a connection that refuses writes, nothing is written. |
| Server.ServeKeepsWritten | pkg/server/server.go:73-110 | Replies are only appended, and nothing is written to a connection that refuses writes. |
| Server.ServeReadFailure | pkg/server/server.go:74-77 | A failed read ends the loop with that error and writes nothing. |
| Server.ServeSkipsEmpty | pkg/server/server.go:80-84 | A value with no elements gets no reply, and the loop reads the next value. |
| Server.ServeQuit | pkg/server/server.go:92-95 | QUIT answers "OK" and ends the loop without error, even if a handler is registered for it. |
| Server.ServePing | pkg/server/server.go:96-98 | PING answers "PONG" and also ends the loop. |
| Server.ServeUnknown | pkg/server/server.go:101-104 | An unregistered verb gets "unknown command <VERB>", and the loop goes on. A failed write of that reply ends it. |
| Server.ServeRegistered | pkg/server/server.go:105-108 | A registered verb runs its handler with all the command's elements. A handler error ends the loop. |
| Server.UnknownErrorBytes | pkg/server/server.go:64 | The final error reply is exactly "-ERR unknown error\r\n" on the wire. |
| Server.ServeConn | pkg/server/server.go:59-66 | On a connection that accepts writes, the last reply is "ERR unknown error" exactly when the loop failed. The loop's own replies come first. |
| Server.ServeConnReportsErrors | pkg/server/server.go:59-66 | A connection whose loop ends in error gets that reply last. One that ends cleanly does not. |
| Server.Conn.Write | pkg/server/server.go:94 | A write appends the value, or fails and appends nothing. |
| Server.Conn.WriteAll | pkg/server/server.go:106 | A handler's replies are appended in order. |
| Server.Conn.constructor | pkg/server/server.go:19-25 | A connection reads its input from the start and has written nothing. |
| Server.Server.constructor | pkg/server/server.go:32-36 | A new server has no handlers. |
| Server.Server.AddCommandHandler | pkg/server/server.go:38-44 | The handler is stored under the upper-cased command, replacing any earlier one. Every other entry stays. |
| Server.Server.HandleConn | pkg/server/server.go:70-111 | The loop's final error, written replies and handler state are exactly what Serve says. |
| Server.Server.ServeConnection | pkg/server/server.go:59-66 | The goroutine's replies and state are exactly what ServeConn says. |
| Redis.SetHandler | cmd/redis-server/main.go:16-30 | With three arguments, stores key := value and answers "OK". With any other count, answers the 'set' arity error and stores nothing. Never fails. |
| Redis.GetHandler | cmd/redis-server/main.go:32-48 | Answers the stored value as a bulk string, the empty simple string for a missing key, or the 'get' arity error. Never changes the store and never fails. |
| Redis.Handlers | cmd/redis-server/main.go:15-48 | Exactly SET and GET are registered, each to its handler. |
| Redis.UpperCaseNames | cmd/redis-server/main.go:15-32 | "set" and "get" upper-case to the distinct keys SET and GET. |
| Redis.SetThenGet | cmd/redis-server/main.go:16-48 | A GET after a SET of the same key answers the value set. |
| Redis.SetKeepsOtherKeys | cmd/redis-server/main.go:20-23 | A SET changes no other key. |
| Redis.MissingKeyBytes | cmd/redis-server/main.go:40-41 | A missing key is answered "+\r\n" on the wire. |
| Redis.StoredValueBytes | cmd/redis-server/main.go:43 | A stored value is answered as a bulk frame on the wire. |
| Redis.RedisNeverFailsInHandler | cmd/redis-server/main.go:16-48 | The server's loop never ends because of a SET or GET handler. |
| Redis.Bulks | cmd/redis-server/main.go:21-22 | Each word becomes a bulk string whose String() is that word. |
| Redis.BulksAreWire | pkg/server/server.go:79 | Commands sent as bulk strings are values the decoder reads back. |
| Redis.ServeCommand | pkg/server/server.go:74-108 | A SET or GET command on the wire runs its handler and the loop moves past it. |
| Redis.ServeSetCommand | cmd/redis-server/main.go:16-30 | A SET command on the wire, with the verb in any case, stores the value, answers "OK", and the loop reads on after it. |
| Redis.ServeGetCommand | cmd/redis-server/main.go:32-48 | A GET command on the wire answers the value or the empty simple string, leaves the store as it was, and the loop reads on after it. |
| Redis.KvStore.Set | cmd/redis-server/main.go:16-30 | Updating the store in place gives exactly SetHandler's replies and new store. |
| Redis.KvStore.Get | cmd/redis-server/main.go:32-48 | Reading the store gives exactly GetHandler's replies. |
| Redis.NewRedis | cmd/redis-server/main.go:15-48 | main's registrations leave exactly Handlers() in the server. |

## Left out

- TCP, `ListenAndServe`, `net.Conn` and goroutines are not modelled. One connection is modelled at a time:
  - its input is a byte sequence;
  - its output is a log of the values written;
  - a fixed flag says whether writes succeed.
- The server's mutex is not modelled, and neither is the mutex around `kvStore`. Handlers are modelled as run one at a time.
- writer.go is not modelled. It shows only a struct and a constructor. Each `WriteSimpleStrings`, `WriteErrors` or `WriteBulkStrings` call is modelled as appending the corresponding value to the connection's log. A handler's write errors are ignored, as main.go ignores them.
- bufio's buffering is left out. The reader works directly on the input bytes, and `ReadByte`, `ReadBytes` and `ReadFull` are methods over them.
- ByteUtil.ToUpper: does not model strings.ToUpper's Unicode case mapping, only ASCII a-z; a command verb outside ASCII would be upper-cased differently.
- Go's `int` is taken to be 64 bits wide: `Value.integer` is an `int64` and counts and lengths are unbounded naturals within it.
- Values.Value.String: does not model fmt's `%v` rendering of an array beyond a bracketed, space-separated list of the elements' String().
- Server.Handler: a handler is a function of its arguments and the state its closure captured, and returns its replies, new state and error. It does not write to the connection itself.
- A nil handler registered with `AddCommandHandler` is not modelled. The Go loop treats a nil entry like a verb with no entry and answers "unknown command <VERB>" (pkg/server/server.go:89 and 101). Every handler is a total function here, so no entry is ever nil.
- Server.Serve: tests whether the verb is a key of the registry, where the Go loop tests whether the handler found is nil. The two agree on every registry the model can build, because a model handler is never nil.
- Decode.DecodeLine: `readLine` reports n = 0 when it fails, even though bytes were consumed. The model keeps that, so n only bounds the bytes consumed on failure.
- `Type.String` (pkg/parser/parser.go:22-37) is not modelled. Nothing in the core calls it.
- Reader.Reader.Read: does not model the commented-out mapping of io.EOF to io.ErrUnexpectedEOF (pkg/parser/reader.go:50-52), which the code does not do.
- After `handleConn` fails, the raw bytes "-ERR unknown error\r\n" are written by `io.WriteString`. This is modelled as appending the error value whose encoding Server.UnknownErrorBytes proves to be those bytes.

## Findings

| source | as written | input that shows it | evidently intended | confidence | as-written member | corrected member |
|---|---|---|---|---|---|---|
| pkg/parser/reader.go:102-110 | `arrvals := make([]Value, 0)`, then `arrvals[i] = val` for each element: an index past the end of a zero-length slice, which panics | `*1\r\n:1\r\n`, the array holding the integer 1 (or any non-empty array the encoder writes) | append each element (`arrvals = append(arrvals, val)`), giving the array of the elements read in order | high; not executed | ArrayFinding.EncodedArrayPanicsAsWritten | RoundTrip.DecodeMarshal |

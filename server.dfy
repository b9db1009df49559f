/**
 * The command server (pkg/server/server.go): a registry of handlers keyed by
 * upper-cased verb, and the loop of handleConn that reads one value at a
 * time from a connection and decides what to do with it.
 *
 * A handler is modelled as a function of the argument list and the state its
 * closure captured, giving back the replies it writes, the new state and its
 * error; the connection is a Reader over the bytes the peer sends plus the
 * log of values written back to it.
 */
module Server {
  import opened Wrappers
  import opened ByteUtil
  import opened Values
  import opened Encode
  import opened Decode
  import Reader

  const QuitVerb: seq<byte> := Ascii("QUIT")
  const PingVerb: seq<byte> := Ascii("PING")
  const OkText: seq<byte> := Ascii("OK")
  const PongText: seq<byte> := Ascii("PONG")
  const UnknownCommand: seq<byte> := Ascii("unknown command ")
  const UnknownError: seq<byte> := Ascii("ERR unknown error")

  /** What a handler call does: the replies it writes, the state it leaves and the error it returns. */
  datatype HandlerResult<S> = HandlerResult(replies: seq<Value>, state: S, err: Option<seq<byte>>)

  /** func(conn *Conn, args []parser.Value) error, over a captured state of type S. */
  type Handler<!S> = (seq<Value>, S) -> HandlerResult<S>

  /** Why handleConn returned an error. */
  datatype ConnError = ReadFailed(e: ReadError) | WriteFailed | HandlerFailed(msg: seq<byte>)

  /** The verdict of one turn of handleConn on a decoded value. */
  datatype Verdict = Skip | Quit | Ping | Unknown(verb: seq<byte>) | Registered(verb: seq<byte>)

  /** The command verb: the upper-cased String() of the first element. */
  function Verb(v: Value): (r: seq<byte>)
    requires v.Array() != []
    ensures |r| == |v.Array()[0].String()|
  {
    ToUpper(v.Array()[0].String())
  }

  /**
   * The decision inside handleConn: nothing to do for a value without
   * elements; QUIT and PING before any registered handler; otherwise the
   * handler registered under the verb, if there is one.
   */
  function Classify(v: Value, verbs: set<seq<byte>>): (d: Verdict)
    ensures d.Skip? <==> v.Array() == []
    ensures d.Quit? <==> v.Array() != [] && Verb(v) == QuitVerb
    ensures d.Ping? <==> v.Array() != [] && Verb(v) == PingVerb
    ensures d.Unknown? <==> v.Array() != [] && Verb(v) != QuitVerb && Verb(v) != PingVerb && Verb(v) !in verbs
    ensures d.Registered? <==> v.Array() != [] && Verb(v) != QuitVerb && Verb(v) != PingVerb && Verb(v) in verbs
    ensures d.Unknown? || d.Registered? ==> d.verb == Verb(v)
  {
    if v.Array() == [] then Skip
    else
      var command := Verb(v);
      if command == QuitVerb then
        assert QuitVerb[0] != PingVerb[0];
        Quit
      else if command == PingVerb then Ping
      else if command !in verbs then Unknown(command)
      else Registered(command)
  }

  /** The log of written values after writing vs to a connection that accepts writes, or not. */
  function Written(out: seq<Value>, writable: bool, vs: seq<Value>): (r: seq<Value>)
    ensures r == if writable then out + vs else out
  {
    if writable then out + vs else out
  }

  /** The last reply written is one after which handleConn returns without error: "OK" to QUIT or "PONG" to PING. */
  predicate EndsWithClosingReply(out: seq<Value>)
  {
    out != [] && (out[|out| - 1] == SimpleStringsValue(OkText) || out[|out| - 1] == SimpleStringsValue(PongText))
  }

  /** How handleConn ends: the values written, the handlers' state, and the error it returns. */
  datatype Outcome<S> = Outcome(out: seq<Value>, state: S, err: Option<ConnError>)

  /**
   * handleConn from read position pos onwards, with out already written: the
   * values read in turn, each classified and answered, until a read fails,
   * QUIT or PING, a write of an error reply fails, or a handler fails.
   */
  function Serve<S>(data: seq<byte>, pos: nat, handlers: map<seq<byte>, Handler<S>>, state: S,
                    writable: bool, out: seq<Value>): (r: Outcome<S>)
    requires pos <= |data|
    // handleConn returns nil only after answering QUIT or PING
    ensures r.err.None? && writable ==> EndsWithClosingReply(r.out)
    ensures r.err.None? && !writable ==> r.out == out
    decreases |data| - pos
  {
    var d := DecodeValue(data, pos);
    if d.err.Some? then Outcome(out, state, Some(ReadFailed(d.err.value)))
    else
      match Classify(d.val, handlers.Keys)
      case Skip => Serve(data, d.next, handlers, state, writable, out)
      case Quit => Outcome(Written(out, writable, [SimpleStringsValue(OkText)]), state, None)
      case Ping => Outcome(Written(out, writable, [SimpleStringsValue(PongText)]), state, None)
      case Unknown(verb) =>
        if !writable then Outcome(out, state, Some(WriteFailed))
        else Serve(data, d.next, handlers, state, writable, out + [ErrorsValue(Some(UnknownCommand + verb))])
      case Registered(verb) =>
        var h := handlers[verb](d.val.Array(), state);
        if h.err.Some? then Outcome(Written(out, writable, h.replies), h.state, Some(HandlerFailed(h.err.value)))
        else Serve(data, d.next, handlers, h.state, writable, Written(out, writable, h.replies))
  }

  /** Replies are only ever appended: what was written before stays, in order. */
  lemma {:induction false} ServeKeepsWritten<S>(data: seq<byte>, pos: nat, handlers: map<seq<byte>, Handler<S>>,
                                               state: S, writable: bool, out: seq<Value>)
    requires pos <= |data|
    ensures out <= Serve(data, pos, handlers, state, writable, out).out
    ensures !writable ==> Serve(data, pos, handlers, state, writable, out).out == out
    decreases |data| - pos
  {
    var d := DecodeValue(data, pos);
    if d.err.None? {
      match Classify(d.val, handlers.Keys)
      case Skip =>
        ServeKeepsWritten(data, d.next, handlers, state, writable, out);
      case Quit =>
      case Ping =>
      case Unknown(verb) =>
        if writable {
          var out' := out + [ErrorsValue(Some(UnknownCommand + verb))];
          ServeKeepsWritten(data, d.next, handlers, state, writable, out');
        }
      case Registered(verb) =>
        var h := handlers[verb](d.val.Array(), state);
        if h.err.None? {
          ServeKeepsWritten(data, d.next, handlers, h.state, writable, Written(out, writable, h.replies));
        }
    }
  }

  /** A failed read ends the loop with that error and writes nothing. */
  lemma ServeReadFailure<S>(data: seq<byte>, pos: nat, handlers: map<seq<byte>, Handler<S>>, state: S,
                            writable: bool, out: seq<Value>)
    requires pos <= |data| && DecodeValue(data, pos).err.Some?
    ensures Serve(data, pos, handlers, state, writable, out)
      == Outcome(out, state, Some(ReadFailed(DecodeValue(data, pos).err.value)))
  {
  }

  /**
   * A value with no elements (not an array, the null array, or the empty
   * array) gets no reply, and the loop goes on with the next value.
   */
  lemma ServeSkipsEmpty<S>(data: seq<byte>, pos: nat, handlers: map<seq<byte>, Handler<S>>, state: S,
                           writable: bool, out: seq<Value>)
    requires pos <= |data|
    requires DecodeValue(data, pos).err.None? && DecodeValue(data, pos).val.Array() == []
    ensures DecodeValue(data, pos).next > pos
    ensures Serve(data, pos, handlers, state, writable, out)
      == Serve(data, DecodeValue(data, pos).next, handlers, state, writable, out)
  {
  }

  /**
   * QUIT (in any letter case) answers "OK" and ends the loop without error,
   * whether or not a handler is registered under QUIT.
   */
  lemma ServeQuit<S>(data: seq<byte>, pos: nat, handlers: map<seq<byte>, Handler<S>>, state: S,
                     writable: bool, out: seq<Value>)
    requires pos <= |data| && DecodeValue(data, pos).err.None?
    requires DecodeValue(data, pos).val.Array() != [] && Verb(DecodeValue(data, pos).val) == QuitVerb
    ensures Serve(data, pos, handlers, state, writable, out)
      == Outcome(Written(out, writable, [SimpleStringsValue(OkText)]), state, None)
  {
  }

  /** PING answers "PONG" and also ends the loop: nothing after it is read. */
  lemma ServePing<S>(data: seq<byte>, pos: nat, handlers: map<seq<byte>, Handler<S>>, state: S,
                     writable: bool, out: seq<Value>)
    requires pos <= |data| && DecodeValue(data, pos).err.None?
    requires DecodeValue(data, pos).val.Array() != [] && Verb(DecodeValue(data, pos).val) == PingVerb
    ensures Serve(data, pos, handlers, state, writable, out)
      == Outcome(Written(out, writable, [SimpleStringsValue(PongText)]), state, None)
  {
    assert PingVerb[0] != QuitVerb[0];
  }

  /**
   * A verb with no handler gets the error reply "unknown command " + verb and
   * the loop goes on; if that reply cannot be written, the loop ends with the
   * write error.
   */
  lemma ServeUnknown<S>(data: seq<byte>, pos: nat, handlers: map<seq<byte>, Handler<S>>, state: S,
                        writable: bool, out: seq<Value>)
    requires pos <= |data| && DecodeValue(data, pos).err.None?
    requires var v := DecodeValue(data, pos).val;
      v.Array() != [] && Verb(v) != QuitVerb && Verb(v) != PingVerb && Verb(v) !in handlers
    ensures var d := DecodeValue(data, pos);
      Serve(data, pos, handlers, state, writable, out)
        == if writable then Serve(data, d.next, handlers, state, writable, out + [ErrorsValue(Some(UnknownCommand + Verb(d.val)))])
           else Outcome(out, state, Some(WriteFailed))
  {
  }

  /**
   * A verb with a handler calls it with every element of the command, the
   * verb itself included; a handler error ends the loop with that error.
   */
  lemma ServeRegistered<S>(data: seq<byte>, pos: nat, handlers: map<seq<byte>, Handler<S>>, state: S,
                           writable: bool, out: seq<Value>)
    requires pos <= |data| && DecodeValue(data, pos).err.None?
    requires var v := DecodeValue(data, pos).val;
      v.Array() != [] && Verb(v) != QuitVerb && Verb(v) != PingVerb && Verb(v) in handlers
    ensures var d := DecodeValue(data, pos);
      var h := handlers[Verb(d.val)](d.val.elements, state);
      Serve(data, pos, handlers, state, writable, out)
        == if h.err.Some? then Outcome(Written(out, writable, h.replies), h.state, Some(HandlerFailed(h.err.value)))
           else Serve(data, d.next, handlers, h.state, writable, Written(out, writable, h.replies))
  {
  }

  /**
   * The goroutine serving one connection: after handleConn returns an error,
   * "-ERR unknown error\r\n" is written before the connection is closed.
   */
  function ServeConn<S>(data: seq<byte>, handlers: map<seq<byte>, Handler<S>>, state: S, writable: bool): (r: Outcome<S>)
    // on a connection that accepts writes, the last reply is the generic error exactly when the loop failed
    ensures writable ==> (r.err.Some? <==> r.out != [] && r.out[|r.out| - 1] == ErrorsValue(Some(UnknownError)))
    ensures Serve(data, 0, handlers, state, writable, []).out <= r.out
  {
    var o := Serve(data, 0, handlers, state, writable, []);
    if o.err.Some? then Outcome(Written(o.out, writable, [ErrorsValue(Some(UnknownError))]), o.state, o.err)
    else o
  }

  /** That last reply is exactly the bytes "-ERR unknown error\r\n" on the wire. */
  lemma UnknownErrorBytes()
    ensures Marshal(ErrorsValue(Some(UnknownError))) == Ok(Ascii("-ERR unknown error\r\n"))
  {
    var wire := Ascii("-ERR unknown error\r\n");
    assert TaggedLine(Errors, UnknownError) == wire by {
      forall i | 0 <= i < |wire|
        ensures TaggedLine(Errors, UnknownError)[i] == wire[i]
      {
      }
    }
  }

  /** Every error leaves that reply last on a writable connection; success never does. */
  lemma ServeConnReportsErrors<S>(data: seq<byte>, handlers: map<seq<byte>, Handler<S>>, state: S, writable: bool)
    ensures var r := ServeConn(data, handlers, state, writable);
      var o := Serve(data, 0, handlers, state, writable, []);
      && r.err == o.err && r.state == o.state
      && (r.err.Some? && writable ==> r.out == o.out + [ErrorsValue(Some(UnknownError))])
      && (r.err.None? ==> r.out == o.out)
  {
  }

  /**
   * A connection: the Reader over what the peer sends and the values written
   * back, in order. A connection either accepts every write or fails every
   * write.
   */
  class Conn {
    const reader: Reader.Reader
    var out: seq<Value>
    const writable: bool

    ghost predicate Valid()
      reads this, reader
    {
      reader.Valid()
    }

    /** NewConn over a connection that delivers input. */
    constructor (input: seq<byte>, acceptsWrites: bool)
      ensures Valid() && fresh(reader) && reader.data == input && reader.pos == 0
      ensures out == [] && writable == acceptsWrites
    {
      reader := new Reader.Reader(input);
      out := [];
      writable := acceptsWrites;
    }

    /** Writes v, or fails and writes nothing. */
    method Write(v: Value) returns (err: Option<ConnError>)
      modifies this
      ensures out == Written(old(out), writable, [v])
      ensures err == if writable then None else Some(WriteFailed)
    {
      if writable {
        out := out + [v];
        err := None;
      } else {
        err := Some(WriteFailed);
      }
    }

    /** Writes each of vs in turn, ignoring failures as the handlers do. */
    method WriteAll(vs: seq<Value>)
      modifies this
      ensures out == Written(old(out), writable, vs)
    {
      var i := 0;
      while i < |vs|
        invariant 0 <= i <= |vs|
        invariant out == Written(old(out), writable, vs[..i])
      {
        var _ := Write(vs[i]);
        assert vs[..i + 1] == vs[..i] + [vs[i]];
        i := i + 1;
      }
      assert vs[..i] == vs;
    }
  }

  /** The server: the handler registry. */
  class Server<S> {
    var handlers: map<seq<byte>, Handler<S>>

    /** NewServer: no handlers. */
    constructor ()
      ensures handlers == map[]
    {
      handlers := map[];
    }

    /**
     * AddCommandHandler: the handler is stored under the upper-cased command,
     * replacing any earlier one there; every other entry stays.
     */
    method AddCommandHandler(command: seq<byte>, handler: Handler<S>)
      modifies this
      ensures handlers == old(handlers)[ToUpper(command) := handler]
    {
      handlers := handlers[ToUpper(command) := handler];
    }

    /**
     * handleConn: reads and answers values until the loop ends, and returns
     * what Serve says: the error, and the state the handlers leave.
     */
    method HandleConn(conn: Conn, state: S) returns (err: Option<ConnError>, state': S)
      requires conn.Valid()
      modifies conn, conn.reader
      ensures conn.Valid()
      ensures Outcome(conn.out, state', err)
        == Serve(conn.reader.data, old(conn.reader.pos), handlers, state, conn.writable, old(conn.out))
    {
      state' := state;
      while true
        invariant conn.Valid()
        invariant Serve(conn.reader.data, conn.reader.pos, handlers, state', conn.writable, conn.out)
          == Serve(conn.reader.data, old(conn.reader.pos), handlers, state, conn.writable, old(conn.out))
        decreases |conn.reader.data| - conn.reader.pos
      {
        ghost var before := conn.reader.pos;
        var v, e := conn.reader.Read();
        if e.Some? {
          return Some(ReadFailed(e.value)), state';
        }
        var values := v.Array();
        if |values| == 0 {
          continue;
        }
        var command := ToUpper(values[0].String());
        if command == QuitVerb {
          var _ := conn.Write(SimpleStringsValue(OkText));
          return None, state';
        } else if command == PingVerb {
          var _ := conn.Write(SimpleStringsValue(PongText));
          return None, state';
        }
        if command !in handlers {
          var w := conn.Write(ErrorsValue(Some(UnknownCommand + command)));
          if w.Some? {
            return w, state';
          }
        } else {
          var h := handlers[command](values, state');
          conn.WriteAll(h.replies);
          state' := h.state;
          if h.err.Some? {
            return Some(HandlerFailed(h.err.value)), state';
          }
        }
      }
    }

    /** The goroutine for one connection: handleConn, then the error reply if it failed. */
    method ServeConnection(conn: Conn, state: S) returns (state': S)
      requires conn.Valid() && conn.reader.pos == 0 && conn.out == []
      modifies conn, conn.reader
      ensures var r := ServeConn(conn.reader.data, handlers, state, conn.writable);
        conn.out == r.out && state' == r.state
    {
      var err;
      err, state' := HandleConn(conn, state);
      if err.Some? {
        var _ := conn.Write(ErrorsValue(Some(UnknownError)));
      }
    }
  }
}

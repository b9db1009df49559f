/**
 * The mock Redis server (cmd/redis-server/main.go): a key-value store shared
 * by the SET and GET handlers, registered on a Server.
 */
module Redis {
  import opened Wrappers
  import opened ByteUtil
  import opened Strconv
  import opened Values
  import opened Encode
  import opened Decode
  import opened Server
  import opened RoundTrip

  /** kvStore: keys and values are the String() of the command's arguments. */
  type Store = map<seq<byte>, seq<byte>>

  const SetArityError: seq<byte> := Ascii("ERR wrong number of arguments for 'set' command")
  const GetArityError: seq<byte> := Ascii("ERR wrong number of arguments for 'get' command")

  /**
   * SET key value: stores the value under the key and answers "OK"; any
   * other number of arguments is answered with an error and stores nothing.
   * The handler itself never fails.
   */
  function SetHandler(args: seq<Value>, kv: Store): (h: HandlerResult<Store>)
    ensures h.err == None && |h.replies| == 1
    ensures |args| == 3 ==>
      h.replies == [SimpleStringsValue(OkText)] && h.state == kv[args[1].String() := args[2].String()]
    ensures |args| != 3 ==> h.replies == [ErrorsValue(Some(SetArityError))] && h.state == kv
  {
    if |args| != 3 then HandlerResult([ErrorsValue(Some(SetArityError))], kv, None)
    else HandlerResult([SimpleStringsValue(OkText)], kv[args[1].String() := args[2].String()], None)
  }

  /**
   * GET key: answers the stored value as a bulk string, or the empty simple
   * string when the key is missing; any other number of arguments is
   * answered with an error. The store never changes and the handler never
   * fails.
   */
  function GetHandler(args: seq<Value>, kv: Store): (h: HandlerResult<Store>)
    ensures h.err == None && h.state == kv && |h.replies| == 1
    ensures |args| != 2 ==> h.replies == [ErrorsValue(Some(GetArityError))]
    ensures |args| == 2 && args[1].String() in kv ==> h.replies == [BulkStringsValue(kv[args[1].String()])]
    ensures |args| == 2 && args[1].String() !in kv ==> h.replies == [SimpleStringsValue([])]
  {
    if |args| != 2 then HandlerResult([ErrorsValue(Some(GetArityError))], kv, None)
    else
      var key := args[1].String();
      if key !in kv then HandlerResult([SimpleStringsValue([])], kv, None)
      else HandlerResult([BulkStringsValue(kv[key])], kv, None)
  }

  /** The handlers main registers: "set" and "get", stored as SET and GET. */
  function Handlers(): (hs: map<seq<byte>, Handler<Store>>)
    ensures hs.Keys == {Ascii("SET"), Ascii("GET")}
    ensures hs[Ascii("SET")] == SetHandler && hs[Ascii("GET")] == GetHandler
  {
    UpperCaseNames();
    map[ToUpper(Ascii("set")) := SetHandler, ToUpper(Ascii("get")) := GetHandler]
  }

  /** Upper-casing the registered names gives SET and GET, which differ. */
  lemma UpperCaseNames()
    ensures ToUpper(Ascii("set")) == Ascii("SET") && ToUpper(Ascii("get")) == Ascii("GET")
    ensures Ascii("SET") != Ascii("GET")
  {
    var set_, get_ := Ascii("set"), Ascii("get");
    assert ToUpper(set_) == Ascii("SET") by {
      forall i | 0 <= i < 3 ensures ToUpper(set_)[i] == Ascii("SET")[i] { }
    }
    assert ToUpper(get_) == Ascii("GET") by {
      forall i | 0 <= i < 3 ensures ToUpper(get_)[i] == Ascii("GET")[i] { }
    }
    assert Ascii("SET")[0] != Ascii("GET")[0];
  }

  /** A GET after a SET of the same key answers the value that was set. */
  lemma SetThenGet(key: Value, val: Value, kv: Store, verb1: Value, verb2: Value)
    ensures var s := SetHandler([verb1, key, val], kv);
      GetHandler([verb2, key], s.state).replies == [BulkStringsValue(val.String())]
  {
  }

  /** A SET leaves every other key as it was. */
  lemma SetKeepsOtherKeys(args: seq<Value>, kv: Store, other: seq<byte>)
    requires |args| == 3 && other != args[1].String()
    ensures var s := SetHandler(args, kv).state;
      (other in s <==> other in kv) && (other in kv ==> s[other] == kv[other])
  {
  }

  /** A GET of a key never set is answered "+\r\n" on the wire. */
  lemma MissingKeyBytes()
    ensures Marshal(SimpleStringsValue([])) == Ok([SimpleStrings, CR, LF])
  {
    assert SimpleStringsValue([]).str == [];
    assert TaggedLine(SimpleStrings, []) == [SimpleStrings, CR, LF];
  }

  /** A GET of a stored value v is answered "$<len(v)>\r\n<v>\r\n" on the wire. */
  lemma StoredValueBytes(v: seq<byte>)
    ensures Marshal(BulkStringsValue(v)) == Ok([BulkStrings] + FormatInt(|v|) + CRLF + v + CRLF)
  {
    var r := BulkFrame(v);
    var len := FormatInt(|v|);
    assert r == r[..3 + |len|] + r[3 + |len|..];
  }

  /**
   * The whole server on one connection's input: the handlers never fail, so
   * the connection ends only on a read failure, QUIT or PING (or a write
   * failure), and the store is whatever the SETs made of it.
   */
  lemma {:induction false} RedisNeverFailsInHandler(data: seq<byte>, pos: nat, kv: Store, writable: bool, out: seq<Value>)
    requires pos <= |data|
    ensures !Serve(data, pos, Handlers(), kv, writable, out).err.Some?
      || !Serve(data, pos, Handlers(), kv, writable, out).err.value.HandlerFailed?
    decreases |data| - pos
  {
    var d := DecodeValue(data, pos);
    if d.err.None? {
      match Classify(d.val, Handlers().Keys)
      case Skip =>
        RedisNeverFailsInHandler(data, d.next, kv, writable, out);
      case Quit =>
      case Ping =>
      case Unknown(verb) =>
        if writable {
          RedisNeverFailsInHandler(data, d.next, kv, writable, out + [ErrorsValue(Some(UnknownCommand + verb))]);
        }
      case Registered(verb) =>
        var h := Handlers()[verb](d.val.Array(), kv);
        RedisNeverFailsInHandler(data, d.next, h.state, writable, Written(out, writable, h.replies));
    }
  }

  /** The arguments of a command as clients send them: bulk strings. */
  function Bulks(words: seq<seq<byte>>): (vs: seq<Value>)
    ensures |vs| == |words|
    ensures forall i | 0 <= i < |words| :: vs[i] == BulkStringsValue(words[i]) && vs[i].String() == words[i]
  {
    seq(|words|, i requires 0 <= i < |words| => BulkStringsValue(words[i]))
  }

  /** A command as clients send it: an array of bulk strings. */
  function Command(words: seq<seq<byte>>): (v: Value)
    ensures v.Array() == Bulks(words)
  {
    ArrayValue(Bulks(words))
  }

  /** Bulk strings no longer than the reader accepts are values the decoder reads back. */
  lemma {:induction false} BulksAreWire(words: seq<seq<byte>>)
    requires forall i | 0 <= i < |words| :: |words[i]| <= MaxBulkLen
    ensures AllWire(Bulks(words))
    decreases |words|
  {
    if words != [] {
      assert Bulks(words)[1..] == Bulks(words[1..]);
      BulksAreWire(words[1..]);
    }
  }

  /** Such a command with a handful of words is a value the decoder reads back. */
  lemma CommandIsWire(words: seq<seq<byte>>)
    requires |words| <= MaxArrayLen && forall i | 0 <= i < |words| :: |words[i]| <= MaxBulkLen
    ensures WireValue(Command(words)) && Marshal(Command(words)).Ok?
  {
    BulksAreWire(words);
    WireValueMarshals(Command(words));
  }

  /**
   * A registered command on the wire at pos: the server calls its handler
   * with the command's words and goes on with the bytes after it.
   */
  lemma ServeCommand(data: seq<byte>, pos: nat, words: seq<seq<byte>>, kv: Store, out: seq<Value>, m: seq<byte>)
    requires 1 <= |words| <= MaxArrayLen && forall i | 0 <= i < |words| :: |words[i]| <= MaxBulkLen
    requires ToUpper(words[0]) == Ascii("SET") || ToUpper(words[0]) == Ascii("GET")
    requires Marshal(Command(words)) == Ok(m) && At(data, pos, m)
    ensures pos + |m| <= |data|
    ensures var h := Handlers()[ToUpper(words[0])](Bulks(words), kv);
      Serve(data, pos, Handlers(), kv, true, out) == Serve(data, pos + |m|, Handlers(), h.state, true, out + h.replies)
  {
    var cmd := DecodeCommand(data, pos, words, m);
    RegisteredVerb(cmd, words[0]);
    HandlerSucceeds(ToUpper(words[0]), Bulks(words), kv);
    ServeRegistered(data, pos, Handlers(), kv, true, out);
  }

  /** Neither registered handler ever returns an error: a wrong arity is answered with an error reply. */
  lemma HandlerSucceeds(verb: seq<byte>, args: seq<Value>, kv: Store)
    requires verb == Ascii("SET") || verb == Ascii("GET")
    ensures Handlers()[verb](args, kv).err.None?
  {
    if verb == Ascii("SET") {
      assert Handlers()[verb](args, kv) == SetHandler(args, kv);
    } else {
      assert Handlers()[verb](args, kv) == GetHandler(args, kv);
    }
  }

  /** Decoding at the start of an encoded command gives the command back. */
  lemma DecodeCommand(data: seq<byte>, pos: nat, words: seq<seq<byte>>, m: seq<byte>) returns (cmd: Value)
    requires |words| <= MaxArrayLen && forall i | 0 <= i < |words| :: |words[i]| <= MaxBulkLen
    requires Marshal(Command(words)) == Ok(m) && At(data, pos, m)
    ensures cmd == Command(words) && pos + |m| <= |data|
    ensures DecodeValue(data, pos) == Read(cmd, |m|, None, pos + |m|)
  {
    cmd := Command(words);
    CommandIsWire(words);
    DecodeMarshal(data, pos, cmd);
    AtIndex(data, pos, m);
  }

  /** A command whose first word upper-cases to SET or GET goes to that handler. */
  lemma RegisteredVerb(cmd: Value, verb: seq<byte>)
    requires cmd.Array() != [] && cmd.Array()[0].String() == verb
    requires ToUpper(verb) == Ascii("SET") || ToUpper(verb) == Ascii("GET")
    ensures Verb(cmd) == ToUpper(verb) && Verb(cmd) != QuitVerb && Verb(cmd) != PingVerb
    ensures Verb(cmd) in Handlers()
  {
    UpperCaseNames();
    assert QuitVerb[0] != Ascii("SET")[0] && PingVerb[0] != Ascii("SET")[0];
    assert QuitVerb[0] != Ascii("GET")[0] && PingVerb[0] != Ascii("GET")[0];
  }

  /**
   * One SET command on the wire, its verb in any letter case: the key is
   * stored, "OK" is written, and the server goes on with the bytes after it.
   */
  lemma ServeSetCommand(data: seq<byte>, pos: nat, verb: seq<byte>, key: seq<byte>, val: seq<byte>,
                        kv: Store, out: seq<Value>, m: seq<byte>)
    requires ToUpper(verb) == Ascii("SET")
    requires |verb| <= MaxBulkLen && |key| <= MaxBulkLen && |val| <= MaxBulkLen
    requires Marshal(Command([verb, key, val])) == Ok(m) && At(data, pos, m)
    ensures pos + |m| <= |data|
    ensures Serve(data, pos, Handlers(), kv, true, out)
      == Serve(data, pos + |m|, Handlers(), kv[key := val], true, out + [SimpleStringsValue(OkText)])
  {
    ServeCommand(data, pos, [verb, key, val], kv, out, m);
  }

  /**
   * One GET command on the wire: the stored value, or the empty simple
   * string for a missing key, is written; the store is unchanged and the
   * server goes on with the bytes after it.
   */
  lemma ServeGetCommand(data: seq<byte>, pos: nat, verb: seq<byte>, key: seq<byte>,
                        kv: Store, out: seq<Value>, m: seq<byte>)
    requires ToUpper(verb) == Ascii("GET")
    requires |verb| <= MaxBulkLen && |key| <= MaxBulkLen
    requires Marshal(Command([verb, key])) == Ok(m) && At(data, pos, m)
    ensures pos + |m| <= |data|
    ensures Serve(data, pos, Handlers(), kv, true, out)
      == Serve(data, pos + |m|, Handlers(), kv, true,
               out + [if key in kv then BulkStringsValue(kv[key]) else SimpleStringsValue([])])
  {
    ServeCommand(data, pos, [verb, key], kv, out, m);
  }

  /**
   * The store as main keeps it: one map that the SET handler updates in
   * place and the GET handler reads, each proved to do what the handler
   * functions above say.
   */
  class KvStore {
    var kv: Store

    constructor ()
      ensures kv == map[]
    {
      kv := map[];
    }

    method Set(args: seq<Value>) returns (replies: seq<Value>)
      modifies this
      ensures HandlerResult(replies, kv, None) == SetHandler(args, old(kv))
    {
      if |args| != 3 {
        replies := [ErrorsValue(Some(SetArityError))];
      } else {
        var key := args[1].String();
        var value := args[2].String();
        kv := kv[key := value];
        replies := [SimpleStringsValue(OkText)];
      }
    }

    method Get(args: seq<Value>) returns (replies: seq<Value>)
      ensures HandlerResult(replies, kv, None) == GetHandler(args, kv)
    {
      if |args| != 2 {
        replies := [ErrorsValue(Some(GetArityError))];
      } else {
        var key := args[1].String();
        if key !in kv {
          replies := [SimpleStringsValue([])];
        } else {
          replies := [BulkStringsValue(kv[key])];
        }
      }
    }
  }

  /** main: a new server with the two handlers registered over an empty store. */
  method NewRedis() returns (s: Server<Store>, kv: Store)
    ensures fresh(s) && s.handlers == Handlers() && kv == map[]
  {
    s := new Server();
    s.AddCommandHandler(Ascii("set"), SetHandler);
    s.AddCommandHandler(Ascii("get"), GetHandler);
    kv := map[];
  }
}

/**
 * The server: the registry of callable functions (`Register`), the codec
 * it talks through (`ServerCodec`), and the loop of `ServeConn`, one turn
 * per request: read the header, look the name up, read the arguments,
 * then answer, either at once with an error or through `DealRequest`.
 *
 * The registered functions themselves are foreign code: a `Handler` gives
 * what a call of one of them returns.  Requests are served one after the
 * other; `DealRequest` runs on its own goroutine in the source.
 */
module RpcServer {
  import opened Wrappers
  import opened Errors
  import opened Strconv
  import opened GoValues
  import opened Encoding
  import opened Decoding
  import opened Tokens
  import opened Codec
  import opened Protocol

  // ---------------------------------------------------------------------------
  // Types, as reflect reports them

  /**
   * A type as `reflect.TypeOf` reports it: a function type with its
   * parameter and result types, a pointer type, or any other type with its
   * name and package path (both empty for unnamed and predeclared types)
   * and the shape its zero value has.
   */
  datatype RType =
    | RFunc(ins: seq<RType>, outs: seq<RType>)
    | RPointer(elem: RType)
    | RNamed(name: string, pkgPath: string, shape: Type)

  /** The predeclared `error` interface, `reflect.TypeOf((*error)(nil)).Elem()`. */
  const ErrorType := RNamed("error", "", TIface)

  function Name(t: RType): string
  {
    if t.RNamed? then t.name else ""
  }

  function PkgPath(t: RType): string
  {
    if t.RNamed? then t.pkgPath else ""
  }

  const Capitals := "ABCDEFGHIJKLMNOPQRSTUVWXYZ"

  /** `token.IsExported`: the name begins with an upper-case letter. */
  function IsExported(name: string): (r: bool)
    ensures r <==> |name| > 0 && name[0] in Capitals
  {
    var ok := |name| > 0 && 'A' <= name[0] <= 'Z';
    assert ok ==> Capitals[name[0] as int - 'A' as int] == name[0];
    ok
  }

  /** The loop `for t.Kind() == reflect.Pointer { t = t.Elem() }`. */
  function StripPointers(t: RType): (r: RType)
    ensures !r.RPointer?
  {
    if t.RPointer? then StripPointers(t.elem) else t
  }

  /** n pointer levels above t. */
  function Pointers(n: nat, t: RType): RType
  {
    if n == 0 then t else RPointer(Pointers(n - 1, t))
  }

  /** After every pointer level is removed, the type is exported or has no package. */
  predicate ExportedOrBuiltin(t: RType)
  {
    var b := StripPointers(t);
    IsExported(Name(b)) || PkgPath(b) == ""
  }

  /** `IsExportedOrBulitinType`, with its pointer-stripping loop. */
  method IsExportedOrBulitinType(t: RType) returns (ok: bool)
    ensures ok == ExportedOrBuiltin(t)
  {
    var u := t;
    while u.RPointer?
      invariant StripPointers(u) == StripPointers(t)
      decreases u
    {
      u := u.elem;
    }
    ok := IsExported(Name(u)) || PkgPath(u) == "";
  }

  /** Stripping removes exactly the pointer levels, whatever their number. */
  lemma {:induction false} StripPointersExactly(n: nat, base: RType)
    requires !base.RPointer?
    ensures StripPointers(Pointers(n, base)) == base
  {
    if n > 0 {
      StripPointersExactly(n - 1, base);
    }
  }

  /** Pointer levels make no difference to the test; the base type decides. */
  lemma ExportedOrBuiltinThroughPointers(n: nat, base: RType)
    requires !base.RPointer?
    ensures ExportedOrBuiltin(Pointers(n, base)) <==> IsExported(Name(base)) || PkgPath(base) == ""
  {
    StripPointersExactly(n, base);
  }

  /** `reflect.New(t).Elem()`: a fresh value of t, which is a zero value. */
  function ZeroOf(t: RType): (v: Value)
    ensures IsZero(v)
  {
    match t
    case RFunc(_, _) => Unsupported("func", true)
    case RPointer(_) => Ptr(None)
    case RNamed(_, _, shape) => Zero(shape)
  }

  // ---------------------------------------------------------------------------
  // Register

  const NotAFunction := "register: the second parameter should be a method"
  const NotThreeIns := "register: needs exactly 3 parameter"
  const ReplyNotPointer := "register: reply type needs to be a pointer"
  const ReplyNotExported := "register: reply needs to be exported"
  const NotOneOut := "register: needs to return exactly 1 parameter"
  const OutNotError := "register: needs to return type error"
  const AlreadyRegistered := "register: the name has been registered"
  const UnknownMethod := "the name has not been register"

  /** A function `Register` accepts: three parameters, the third an exported (or predeclared) pointer type, one `error` result. */
  predicate Callable(t: RType)
  {
    t.RFunc? && |t.ins| == 3 && t.ins[2].RPointer? && ExportedOrBuiltin(t.ins[2]) &&
    |t.outs| == 1 && t.outs[0] == ErrorType
  }

  /** The six checks of `Register`, in the order the source makes them; the first that fails gives the error. */
  function CheckSignature(t: RType): (r: Option<string>)
    ensures r.None? <==> Callable(t)
  {
    if !t.RFunc? then Some(NotAFunction)
    else if |t.ins| != 3 then Some(NotThreeIns)
    else if !t.ins[2].RPointer? then Some(ReplyNotPointer)
    else if !ExportedOrBuiltin(t.ins[2]) then Some(ReplyNotExported)
    else if |t.outs| != 1 then Some(NotOneOut)
    else if t.outs[0] != ErrorType then Some(OutNotError)
    else None
  }

  /** Each message names one failed check, and only when every check before it passed. */
  lemma FirstFailureWins(t: RType)
    ensures CheckSignature(t) == Some(NotAFunction) <==> !t.RFunc?
    ensures CheckSignature(t) == Some(NotThreeIns) <==> t.RFunc? && |t.ins| != 3
    ensures CheckSignature(t) == Some(ReplyNotPointer) <==> t.RFunc? && |t.ins| == 3 && !t.ins[2].RPointer?
    ensures CheckSignature(t) == Some(ReplyNotExported)
            <==> t.RFunc? && |t.ins| == 3 && t.ins[2].RPointer? && !ExportedOrBuiltin(t.ins[2])
    ensures CheckSignature(t) == Some(NotOneOut)
            <==> t.RFunc? && |t.ins| == 3 && t.ins[2].RPointer? && ExportedOrBuiltin(t.ins[2]) && |t.outs| != 1
    ensures CheckSignature(t) == Some(OutNotError)
            <==> t.RFunc? && |t.ins| == 3 && t.ins[2].RPointer? && ExportedOrBuiltin(t.ins[2]) && |t.outs| == 1 &&
                 t.outs[0] != ErrorType
  {
    MessagesDistinct();
  }

  /** The seven `Register` errors and then the answer to an unknown name. */
  const Messages := [NotAFunction, NotThreeIns, ReplyNotPointer, ReplyNotExported, NotOneOut, OutNotError,
                     AlreadyRegistered, UnknownMethod]

  /** Three characters that tell the messages apart. */
  function Key(s: string): (char, char, char)
  {
    (if |s| > 10 then s[10] else ' ', if |s| > 16 then s[16] else ' ', if |s| > 26 then s[26] else ' ')
  }

  /** The messages are all different, so an error names its cause. */
  lemma MessagesDistinct()
    ensures forall i, j :: 0 <= i < j < |Messages| ==> Messages[i] != Messages[j]
  {
    assert Key(Messages[0]) == ('t', 'c', 'e');
    assert Key(Messages[1]) == ('n', 'e', 'p');
    assert Key(Messages[2]) == ('r', 't', ' ');
    assert Key(Messages[3]) == ('r', 'n', 'e');
    assert Key(Messages[4]) == ('n', 't', 'e');
    assert Key(Messages[5]) == ('n', 't', 't');
    assert Key(Messages[6]) == ('t', 'm', 'n');
    assert Key(Messages[7]) == ('a', ' ', 's');
  }

  /** What `Mp` holds for a registered name. */
  datatype MethodType = MethodType(funcType: RType, argsType: RType, replyType: RType)

  /**
   * `DealRequest` builds the receiver with `reflect.New(method.Method.In(0).Elem())`
   * and passes it to `fun.Call`: unless the first parameter is a pointer
   * type, one or the other panics.  `Register` never checks that parameter.
   */
  predicate ReceiverOk(mt: MethodType)
  {
    mt.funcType.RFunc? && |mt.funcType.ins| > 0 && mt.funcType.ins[0].RPointer?
  }

  const BadReceiver := "reflect: Elem of invalid type"

  /** Every entry was made by a successful `Register`. */
  predicate WellRegistered(m: map<string, MethodType>)
  {
    forall name :: name in m ==>
      Callable(m[name].funcType) && m[name].argsType == m[name].funcType.ins[1] && m[name].replyType == m[name].funcType.ins[2]
  }

  /** The error `Register(name, t)` returns on a server holding m. */
  function RegisterError(m: map<string, MethodType>, name: string, t: RType): (r: Option<string>)
    ensures r.None? <==> Callable(t) && name !in m
  {
    if CheckSignature(t).Some? then CheckSignature(t)
    else if name in m then Some(AlreadyRegistered)
    else None
  }

  /** The map afterwards. */
  function Registered(m: map<string, MethodType>, name: string, t: RType): (r: map<string, MethodType>)
    ensures m.Keys <= r.Keys <= m.Keys + {name}
    ensures forall k :: k in m ==> r[k] == m[k]
  {
    if RegisterError(m, name, t).None? then m[name := MethodType(t, t.ins[1], t.ins[2])] else m
  }

  /** A refused registration, a duplicate name among them, leaves the map as it was. */
  lemma RefusedLeavesMap(m: map<string, MethodType>, name: string, t: RType)
    ensures RegisterError(m, name, t).Some? ==> Registered(m, name, t) == m
    ensures name in m ==> RegisterError(m, name, t).Some? && Registered(m, name, t) == m
    ensures name in m && Callable(t) ==> RegisterError(m, name, t) == Some(AlreadyRegistered)
  {
  }

  /** A successful registration adds exactly one entry, under the new name, and keeps every other. */
  lemma RegisterAddsOne(m: map<string, MethodType>, name: string, t: RType)
    requires RegisterError(m, name, t).None?
    ensures name !in m && Callable(t)
    ensures Registered(m, name, t).Keys == m.Keys + {name}
    ensures |Registered(m, name, t)| == |m| + 1
    ensures forall k :: k in m ==> Registered(m, name, t)[k] == m[k]
    ensures Registered(m, name, t)[name] == MethodType(t, t.ins[1], t.ins[2])
  {
    assert Registered(m, name, t).Keys == m.Keys + {name};
  }

  /** Registration keeps every entry well formed. */
  lemma RegisterKeepsWellRegistered(m: map<string, MethodType>, name: string, t: RType)
    requires WellRegistered(m)
    ensures WellRegistered(Registered(m, name, t))
  {
  }

  // ---------------------------------------------------------------------------
  // The server's codec

  /**
   * `ServerCodec`: a root-copy encoder and decoder over one connection.
   * The connection's input is the decoder's token sequence; `written`
   * is every frame handed to `conn.Write`, in order.
   */
  class ServerCodec {
    const enc: Encoder
    const dec: Decoder
    var written: seq<string>
    var open: bool

    predicate Valid()
      reads this, dec
    {
      enc.variant == Root && dec.variant == Root && dec.Valid()
    }

    /** `InitCodec(conn)`: the codec over a fresh connection. */
    constructor (tokens: seq<string>)
      ensures Valid() && dec.tokens == tokens && dec.pos == 0 && written == [] && open
      ensures fresh(enc) && fresh(dec)
    {
      enc := new Encoder(Root);
      dec := new Decoder(Root, tokens);
      written := [];
      open := true;
    }

    /** `ReadRequestHeader(&req)` with req a zero `Request`. */
    method ReadRequestHeader() returns (req: Request, err: Option<Error>)
      requires Valid()
      modifies dec
      ensures Valid()
      ensures var h := HeaderDecode(dec.tokens, old(dec.pos)); dec.pos == h.pos && req == RequestOf(h.value) && err == h.err
    {
      var v;
      v, err := dec.JSONDecode(Ptr(Some(RequestValue(Request("", 0)))));
      req := RequestOf(v);
    }

    /** `ReadRequestBody(data)`; `Iface(None)` is a nil data. */
    method ReadRequestBody(data: Value) returns (v: Value, err: Option<Error>)
      requires Valid()
      modifies dec
      ensures Valid() && Decoded(v, dec.pos, err) == JSONDecode(Root, dec.tokens, old(dec.pos), data)
    {
      v, err := dec.JSONDecode(data);
    }

    /** `WirteResponse(&resp, &Data{reply})`: a fresh buffer, both encodes, a space, then the write. */
    method WirteResponse(resp: Response, reply: Option<Value>) returns (err: Option<Error>)
      requires Valid()
      modifies this, enc
      ensures Valid() && open == old(open)
      ensures err == ResponseFrame(resp, reply).err && enc.buf == ResponseFrame(resp, reply).text
      ensures written == old(written) + Sent(ResponseFrame(resp, reply))
    {
      err := EncodeFrame(enc, Ptr(Some(ResponseValue(resp))), Ptr(Some(DataValue(reply))));
      if err.Some? {
        return;
      }
      written := written + [enc.buf];
    }

    method Close()
      modifies this
      ensures !open && written == old(written)
    {
      open := false;
    }
  }

  /** The header read at pos: a zero `Request`, decoded through its pointer. */
  function HeaderDecode(toks: seq<string>, pos: nat): Decoded
    requires pos <= |toks|
  {
    JSONDecode(Root, toks, pos, Ptr(Some(RequestValue(Request("", 0)))))
  }

  // ---------------------------------------------------------------------------
  // One turn of ServeConn

  /** What a registered function's call leaves: the value its reply pointer points to, or its non-nil error's text. */
  datatype CallResult = Replied(reply: Value) | Failed(msg: string)

  /** The registered functions' behaviour: the result of calling the function of a name on the decoded arguments and a zero reply. */
  type Handler = (string, Value, Value) -> CallResult

  /**
   * How a turn ends: an answer at once with an error, a call of the
   * registered function, or a panic of the decoder, which ends the process.
   */
  datatype Outcome =
    | Respond(resp: Response, reply: Option<Value>)
    | Dispatch(req: Request, args: Value)
    | Abort(panic: Error)

  datatype Step = Step(next: nat, outcome: Outcome)

  /** `DealRequest`'s answer to a call: the error text and `Data{nil}`, or no error and the reply pointer. */
  function DealAnswer(req: Request, r: CallResult): (Response, Option<Value>)
  {
    match r
    case Failed(msg) => (Response(req.seqNo, msg), None)
    case Replied(x) => (Response(req.seqNo, ""), Some(Ptr(Some(x))))
  }

  /**
   * One turn of the `for` loop of `ServeConn` on the tokens from pos: where
   * the next turn starts and how this one ends.
   */
  function ServeStep(m: map<string, MethodType>, toks: seq<string>, pos: nat): (s: Step)
    requires pos <= |toks|
    ensures pos <= s.next <= |toks|
  {
    var h := HeaderDecode(toks, pos);
    var req := RequestOf(h.value);
    if Panicked(h.err) then Step(h.pos, Abort(h.err.value))
    else if h.err.Some? then Step(h.pos, Respond(Response(req.seqNo, h.err.value.Text()), None))
    else if req.methodName !in m then Step(h.pos, Respond(Response(req.seqNo, UnknownMethod), None))
    else
      var b := JSONDecode(Root, toks, h.pos, Ptr(Some(ZeroOf(m[req.methodName].argsType))));
      if Panicked(b.err) then Step(b.pos, Abort(b.err.value))
      else if b.err.Some? then Step(b.pos, Respond(Response(req.seqNo, b.err.value.Text()), None))
      else Step(b.pos, Dispatch(req, b.value.target.value))
  }

  /**
   * What a turn's answer writes, the registered function's result given by
   * h: a frame, or the panic that stops the process before anything is
   * written (the decoder's, the receiver's, or the encoder's).
   */
  function Answer(m: map<string, MethodType>, o: Outcome, h: Handler): Encoded
  {
    match o
    case Respond(resp, reply) => ResponseFrame(resp, reply)
    case Dispatch(req, args) =>
      if req.methodName in m && !ReceiverOk(m[req.methodName]) then Encoded("", Some(Panic(BadReceiver)))
      else
        var zero := if req.methodName in m && m[req.methodName].replyType.RPointer?
                    then ZeroOf(m[req.methodName].replyType.elem) else Ptr(None);
        var a := DealAnswer(req, h(req.methodName, args, zero));
        ResponseFrame(a.0, a.1)
    case Abort(e) => Encoded("", Some(e))
  }

  /** Where the reading stands, every frame written so far, and whether the process still runs. */
  datatype Progress = Progress(pos: nat, sent: seq<string>, live: bool)

  /** One turn from pos: where the next turn starts, the frames it writes, and whether it let the process live. */
  function Turn(m: map<string, MethodType>, toks: seq<string>, h: Handler, pos: nat): (t: Progress)
    ensures pos <= t.pos && |t.sent| <= 1
    ensures !t.live ==> t.sent == []
  {
    if pos <= |toks| then
      var s := ServeStep(m, toks, pos);
      var a := Answer(m, s.outcome, h);
      Progress(s.next, Sent(a), !Panicked(a.err))
    else Progress(pos, [], true)
  }

  /** A turn that took step o and wrote its answer after w. */
  lemma TurnOf(m: map<string, MethodType>, toks: seq<string>, h: Handler, p0: nat, pos: nat, o: Outcome,
               w: seq<string>, written: seq<string>, live: bool)
    requires p0 <= |toks| && ServeStep(m, toks, p0) == Step(pos, o)
    requires written == w + Sent(Answer(m, o, h)) && live == !Panicked(Answer(m, o, h).err)
    ensures Turn(m, toks, h, p0) == Progress(pos, written[|w|..], live)
  {
    assert written[|w|..] == Sent(Answer(m, o, h));
  }

  /** n turns of a loop whose turn from p is f(p), stopping at the first that ends the process. */
  function Run(f: nat -> Progress, pos: nat, n: nat): Progress
    decreases n
  {
    if n == 0 then Progress(pos, [], true)
    else
      var t := f(pos);
      if !t.live then t
      else
        var rest := Run(f, t.pos, n - 1);
        Progress(rest.pos, t.sent + rest.sent, rest.live)
  }

  /** The turn of `ServeConn`, as a function of where it starts. */
  function Turns(m: map<string, MethodType>, toks: seq<string>, h: Handler): nat -> Progress
  {
    (p: nat) => Turn(m, toks, h, p)
  }

  /** n turns of `ServeConn` from pos, or fewer when one of them panics. */
  function Serve(m: map<string, MethodType>, toks: seq<string>, pos: nat, n: nat, h: Handler): (r: Progress)
    ensures pos <= r.pos && |r.sent| <= n
    decreases n
  {
    if n == 0 then Progress(pos, [], true)
    else
      var t := Turn(m, toks, h, pos);
      if !t.live then t
      else
        var rest := Serve(m, toks, t.pos, n - 1, h);
        Progress(rest.pos, t.sent + rest.sent, rest.live)
  }

  /** `Serve` is `Run` of the turn. */
  lemma {:induction false} ServeIsRun(m: map<string, MethodType>, toks: seq<string>, pos: nat, n: nat, h: Handler)
    ensures Serve(m, toks, pos, n, h) == Run(Turns(m, toks, h), pos, n)
    decreases n
  {
    if n > 0 {
      ServeIsRun(m, toks, Turn(m, toks, h, pos).pos, n - 1, h);
    }
  }

  /** n + 1 turns of `ServeConn` are n turns and then one more, unless the process has already stopped. */
  lemma ServeOneMore(m: map<string, MethodType>, toks: seq<string>, pos: nat, n: nat, h: Handler)
    ensures var r := Serve(m, toks, pos, n, h);
            var t := Turn(m, toks, h, r.pos);
            Serve(m, toks, pos, n + 1, h) == if r.live then Progress(t.pos, r.sent + t.sent, t.live) else r
  {
    ServeIsRun(m, toks, pos, n, h);
    ServeIsRun(m, toks, pos, n + 1, h);
    RunOneMore(Turns(m, toks, h), pos, n);
  }

  /** Once the process has stopped, further turns change nothing. */
  lemma ServeStops(m: map<string, MethodType>, toks: seq<string>, pos: nat, i: nat, n: nat, h: Handler)
    requires i <= n && !Serve(m, toks, pos, i, h).live
    ensures Serve(m, toks, pos, n, h) == Serve(m, toks, pos, i, h)
  {
    ServeIsRun(m, toks, pos, i, h);
    ServeIsRun(m, toks, pos, n, h);
    RunStops(Turns(m, toks, h), pos, i, n);
  }

  /** n + 1 turns are n turns and then one more, unless a turn has stopped the loop. */
  lemma {:induction false} RunOneMore(f: nat -> Progress, pos: nat, n: nat)
    ensures var r := Run(f, pos, n);
            Run(f, pos, n + 1) == if r.live then Progress(f(r.pos).pos, r.sent + f(r.pos).sent, f(r.pos).live) else r
    decreases n
  {
    var t := f(pos);
    if n > 0 && t.live {
      RunOneMore(f, t.pos, n - 1);
      var r := Run(f, t.pos, n - 1);
      assert t.sent + (r.sent + f(r.pos).sent) == (t.sent + r.sent) + f(r.pos).sent;
    } else if n == 0 {
      assert Run(f, t.pos, 0) == Progress(t.pos, [], true);
      assert t.sent + [] == t.sent == [] + t.sent;
    }
  }

  /** A stopped loop stays stopped. */
  lemma {:induction false} RunStops(f: nat -> Progress, pos: nat, i: nat, n: nat)
    requires i <= n && !Run(f, pos, i).live
    ensures Run(f, pos, n) == Run(f, pos, i)
    decreases i
  {
    if f(pos).live {
      RunStops(f, f(pos).pos, i - 1, n - 1);
    }
  }

  /** A turn that stays where it is and writes one frame writes that frame on every turn. */
  lemma {:induction false} RunAtFixedPoint(f: nat -> Progress, pos: nat, n: nat, x: string)
    requires f(pos) == Progress(pos, [x], true)
    ensures Run(f, pos, n).pos == pos && Run(f, pos, n).live && |Run(f, pos, n).sent| == n
    ensures forall k :: 0 <= k < n ==> Run(f, pos, n).sent[k] == x
    decreases n
  {
    if n > 0 {
      RunAtFixedPoint(f, pos, n - 1, x);
    }
  }

  // ---------------------------------------------------------------------------
  // Properties of a turn

  /** No decode reports io.EOF, so neither `break` of the loop is ever taken: a turn never ends the loop. */
  lemma NoEndOfFile(m: map<string, MethodType>, toks: seq<string>, pos: nat)
    requires pos <= |toks|
    ensures HeaderDecode(toks, pos).err != Some(EOF)
    ensures forall t: RType :: HeaderDecode(toks, pos).pos <= |toks| ==>
              JSONDecode(Root, toks, HeaderDecode(toks, pos).pos, Ptr(Some(ZeroOf(t)))).err != Some(EOF)
  {
  }

  /**
   * At the end of the stream the header fails with "decode failed", the
   * body read of a nil data consumes nothing, and the turn answers with
   * sequence number 0: the next turn starts at the same place.
   */
  lemma EndOfStream(m: map<string, MethodType>, toks: seq<string>)
    ensures ServeStep(m, toks, |toks|) == Step(|toks|, Respond(Response(0, "decode failed"), None))
  {
    var z := RequestValue(Request("", 0));
    assert Decode(Root, toks, |toks|, z, true) == Decoded(z, |toks|, Some(DecodeFailed));
  }

  /** So, once the stream has ended, the server writes the same error frame on every turn, forever. */
  lemma ServesForever(m: map<string, MethodType>, toks: seq<string>, n: nat, h: Handler)
    ensures Serve(m, toks, |toks|, n, h).pos == |toks| && Serve(m, toks, |toks|, n, h).live
    ensures var f := ResponseFrame(Response(0, "decode failed"), None);
            |Serve(m, toks, |toks|, n, h).sent| == n &&
            forall k :: 0 <= k < n ==> Serve(m, toks, |toks|, n, h).sent[k] == f.text
  {
    var f := ResponseFrame(Response(0, "decode failed"), None);
    EndOfStream(m, toks);
    ErrorResponseFrame(0, "decode failed");
    assert Turn(m, toks, h, |toks|) == Progress(|toks|, [f.text], true);
    RunAtFixedPoint(Turns(m, toks, h), |toks|, n, f.text);
    ServeIsRun(m, toks, |toks|, n, h);
  }

  /** A header that decodes with a name nobody registered: the error answer, and the body is left unread. */
  lemma UnknownName(m: map<string, MethodType>, toks: seq<string>, pos: nat)
    requires pos <= |toks|
    requires HeaderDecode(toks, pos).err.None? && RequestOf(HeaderDecode(toks, pos).value).methodName !in m
    ensures var h := HeaderDecode(toks, pos);
            ServeStep(m, toks, pos) == Step(h.pos, Respond(Response(RequestOf(h.value).seqNo, UnknownMethod), None))
  {
  }

  /**
   * Every answer echoes the sequence number the header carried and an error
   * answer is always written; a decode that panics writes nothing and stops
   * the process.
   */
  lemma AnswersEcho(m: map<string, MethodType>, toks: seq<string>, pos: nat, h: Handler)
    requires pos <= |toks|
    ensures var s := ServeStep(m, toks, pos);
            var seqNo := RequestOf(HeaderDecode(toks, pos).value).seqNo;
            (s.outcome.Respond? ==> s.outcome.resp.seqNo == seqNo && s.outcome.reply.None? &&
                                    Sent(Answer(m, s.outcome, h)) != [] && Turn(m, toks, h, pos).live) &&
            (s.outcome.Dispatch? ==> s.outcome.req.seqNo == seqNo) &&
            (s.outcome.Abort? ==> s.outcome.panic.Panic? && Turn(m, toks, h, pos) == Progress(s.next, [], false))
  {
    var s := ServeStep(m, toks, pos);
    if s.outcome.Respond? {
      ErrorResponseFrame(s.outcome.resp.seqNo, s.outcome.resp.error);
    }
  }

  /** A turn that stops the process is the last: every later turn is skipped. */
  lemma PanicEndsServing(m: map<string, MethodType>, toks: seq<string>, pos: nat, n: nat, h: Handler)
    requires !Turn(m, toks, h, pos).live
    ensures Serve(m, toks, pos, n + 1, h) == Progress(Turn(m, toks, h, pos).pos, [], false)
  {
  }

  /**
   * A request for a registered function whose first parameter is not a
   * pointer: the dispatch panics in `DealRequest` and nothing is answered.
   */
  lemma ReceiverPanics(m: map<string, MethodType>, req: Request, args: Value, h: Handler)
    requires req.methodName in m && !ReceiverOk(m[req.methodName])
    ensures Sent(Answer(m, Dispatch(req, args), h)) == []
    ensures Answer(m, Dispatch(req, args), h).err == Some(Panic(BadReceiver))
  {
  }

  /**
   * A header that is an object with no member at all, `{` `}`: the decoder
   * takes `}` for a member name and slices it past its end, which panics, so
   * the server stops instead of answering.
   */
  lemma EmptyHeaderPanics(m: map<string, MethodType>, h: Handler)
    ensures ServeStep(m, ["{", "}"], 0) == Step(2, Abort(Panic(SliceOutOfRange)))
    ensures Serve(m, ["{", "}"], 0, 5, h) == Progress(2, [], false)
  {
    var z := RequestValue(Request("", 0));
    assert Decode(Root, ["{", "}"], 0, z, true) == Decoded(z, 2, Some(Panic(SliceOutOfRange)));
  }

  /**
   * A request the client wrote, for a registered function whose arguments
   * then decode, is dispatched with those arguments; the method name holds
   * no quote, backslash or newline, so the header's tokens are `RequestToks`.
   */
  lemma WellFormedRequest(m: map<string, MethodType>, toks: seq<string>, pos: nat, r: Request)
    requires TokensAt(toks, pos, RequestToks(r)) && r.seqNo <= MaxInt64 && PlainText(r.methodName) && r.methodName in m
    requires JSONDecode(Root, toks, pos + 9, Ptr(Some(ZeroOf(m[r.methodName].argsType)))).err.None?
    ensures var b := JSONDecode(Root, toks, pos + 9, Ptr(Some(ZeroOf(m[r.methodName].argsType))));
            ServeStep(m, toks, pos) == Step(b.pos, Dispatch(r, b.value.target.value))
  {
    RequestRoundTrip(toks, pos, r);
  }

  // ---------------------------------------------------------------------------
  // The server

  /** `Server`: the registry `Mp`. */
  class Server {
    var methods: map<string, MethodType>

    predicate Valid()
      reads this
    {
      WellRegistered(methods)
    }

    /** `GetServer()`. */
    constructor ()
      ensures Valid() && methods == map[]
    {
      methods := map[];
    }

    /** `Register(name, method)`: t is `reflect.TypeOf(method)`. */
    method Register(name: string, t: RType) returns (err: Option<string>)
      requires Valid()
      modifies this
      ensures Valid()
      ensures err == RegisterError(old(methods), name, t)
      ensures methods == Registered(old(methods), name, t)
    {
      if !t.RFunc? {
        return Some(NotAFunction);
      }
      if |t.ins| != 3 {
        return Some(NotThreeIns);
      }
      if !t.ins[2].RPointer? {
        return Some(ReplyNotPointer);
      }
      var exported := IsExportedOrBulitinType(t.ins[2]);
      if !exported {
        return Some(ReplyNotExported);
      }
      if |t.outs| != 1 {
        return Some(NotOneOut);
      }
      if t.outs[0] != ErrorType {
        return Some(OutNotError);
      }
      if name in methods {
        return Some(AlreadyRegistered);
      }
      methods := methods[name := MethodType(t, t.ins[1], t.ins[2])];
      err := None;
    }

    /**
     * `SendResponse` and `WirteResponse`; the mutex that serialises the
     * writes is not modelled.  An encode error is dropped; a panic of the
     * encoder is reported, since it ends the process.
     */
    method SendResponse(codec: ServerCodec, resp: Response, reply: Option<Value>) returns (panicked: bool)
      requires codec.Valid()
      modifies codec, codec.enc
      ensures codec.Valid() && codec.open == old(codec.open)
      ensures codec.written == old(codec.written) + Sent(ResponseFrame(resp, reply))
      ensures panicked == Panicked(ResponseFrame(resp, reply).err)
    {
      var err := codec.WirteResponse(resp, reply);
      panicked := err.Some? && err.value.Panic?;
    }

    /**
     * `DealRequest`: call the registered function on a fresh receiver, the
     * arguments and a zero reply, then answer; panicked says that the
     * receiver or the encoder panicked.
     */
    method DealRequest(codec: ServerCodec, req: Request, args: Value, h: Handler) returns (panicked: bool)
      requires Valid() && codec.Valid() && req.methodName in methods
      modifies codec, codec.enc
      ensures codec.Valid() && codec.open == old(codec.open)
      ensures codec.written == old(codec.written) + Sent(Answer(methods, Dispatch(req, args), h))
      ensures panicked == Panicked(Answer(methods, Dispatch(req, args), h).err)
    {
      var mt := methods[req.methodName];
      var zero := ZeroOf(mt.replyType.elem);
      if !ReceiverOk(mt) {
        return true;
      }
      var result := h(req.methodName, args, zero);
      if result.Failed? {
        panicked := SendResponse(codec, Response(req.seqNo, result.msg), None);
        return;
      }
      panicked := SendResponse(codec, Response(req.seqNo, ""), Some(Ptr(Some(result.reply))));
    }

    /** One turn of the `ServeConn` loop; live says that the process is still running after it. */
    method ServeOne(codec: ServerCodec, h: Handler) returns (o: Outcome, live: bool)
      requires Valid() && codec.Valid()
      modifies codec, codec.enc, codec.dec
      ensures codec.Valid() && codec.open == old(codec.open)
      ensures ServeStep(methods, codec.dec.tokens, old(codec.dec.pos)) == Step(codec.dec.pos, o)
      ensures codec.written == old(codec.written) + Sent(Answer(methods, o, h))
      ensures Turn(methods, codec.dec.tokens, h, old(codec.dec.pos)) == Progress(codec.dec.pos, codec.written[|old(codec.written)|..], live)
    {
      ghost var w := codec.written;
      ghost var toks := codec.dec.tokens;
      ghost var p0 := codec.dec.pos;
      var req, err := codec.ReadRequestHeader();
      var panicked;
      if err.Some? {
        if err.value == EOF {
          assert false;
        }
        if err.value.Panic? {
          o := Abort(err.value);
          return o, false;
        }
        var _, _ := codec.ReadRequestBody(Iface(None));
        o := Respond(Response(req.seqNo, err.value.Text()), None);
        assert ServeStep(methods, toks, p0) == Step(codec.dec.pos, o);
        panicked := SendResponse(codec, o.resp, None);
      } else if req.methodName !in methods {
        var _, _ := codec.ReadRequestBody(Iface(None));
        o := Respond(Response(req.seqNo, UnknownMethod), None);
        assert ServeStep(methods, toks, p0) == Step(codec.dec.pos, o);
        panicked := SendResponse(codec, o.resp, None);
      } else {
        var args, berr := codec.ReadRequestBody(Ptr(Some(ZeroOf(methods[req.methodName].argsType))));
        if berr.Some? {
          if berr.value == EOF {
            assert false;
          }
          if berr.value.Panic? {
            o := Abort(berr.value);
            return o, false;
          }
          o := Respond(Response(req.seqNo, berr.value.Text()), None);
          assert ServeStep(methods, toks, p0) == Step(codec.dec.pos, o);
          panicked := SendResponse(codec, o.resp, None);
        } else {
          o := Dispatch(req, args.target.value);
          assert ServeStep(methods, toks, p0) == Step(codec.dec.pos, o);
          panicked := DealRequest(codec, req, o.args, h);
        }
      }
      live := !panicked;
      TurnOf(methods, toks, h, p0, codec.dec.pos, o, w, codec.written, live);
    }

    /** One more turn of `ServeConn` after i turns from p0, which left the process running. */
    method ServeNext(codec: ServerCodec, h: Handler, ghost p0: nat, ghost w0: seq<string>, ghost i: nat) returns (live: bool)
      requires Valid() && codec.Valid()
      requires var r := Serve(methods, codec.dec.tokens, p0, i, h);
               r.live && codec.dec.pos == r.pos && codec.written == w0 + r.sent
      modifies codec, codec.enc, codec.dec
      ensures codec.Valid() && codec.open == old(codec.open)
      ensures var r := Serve(methods, codec.dec.tokens, p0, i + 1, h);
              live == r.live && codec.dec.pos == r.pos && codec.written == w0 + r.sent
    {
      ghost var r := Serve(methods, codec.dec.tokens, p0, i, h);
      ghost var w := codec.written;
      ServeOneMore(methods, codec.dec.tokens, p0, i, h);
      var _, l := ServeOne(codec, h);
      live := l;
      ghost var t := Turn(methods, codec.dec.tokens, h, r.pos);
      assert codec.written == w + t.sent;
      assert codec.written == w0 + (r.sent + t.sent);
    }

    /**
     * `ServeConn` for n turns.  The source loop has no exit that can be
     * taken (see `NoEndOfFile` and `ServesForever`), so `wg.Wait()` and
     * `codec.Close()` after it are never reached.
     */
    method ServeConn(codec: ServerCodec, h: Handler, n: nat) returns (panicked: bool)
      requires Valid() && codec.Valid()
      modifies codec, codec.enc, codec.dec
      ensures codec.Valid() && codec.open == old(codec.open)
      ensures var r := Serve(methods, codec.dec.tokens, old(codec.dec.pos), n, h);
              codec.dec.pos == r.pos && codec.written == old(codec.written) + r.sent && panicked == !r.live
    {
      ghost var p0 := codec.dec.pos;
      ghost var w0 := codec.written;
      var i := 0;
      var live := true;
      while i < n && live
        invariant 0 <= i <= n
        invariant codec.Valid() && codec.open == old(codec.open)
        invariant var r := Serve(methods, codec.dec.tokens, p0, i, h);
                  live == r.live && codec.dec.pos == r.pos && codec.written == w0 + r.sent
      {
        live := ServeNext(codec, h, p0, w0, i);
        i := i + 1;
      }
      if !live {
        ServeStops(methods, codec.dec.tokens, p0, i, n, h);
      }
      panicked := !live;
    }
  }
}

/**
 * The client: the table of calls waiting for an answer (`pending`, keyed
 * by sequence number), the counter that numbers requests (`seq`), the
 * `closing` flag, and the operations on them: `Deal` sends a call,
 * `Listen` matches answers to calls, `Close` shuts the client, and `Call`
 * waits for one answer or gives up.
 *
 * Everything runs one operation at a time: the mutex, the goroutines of
 * `Deal` and `Listen`, the `Done` channel and the ticker are not modelled.
 */
module RpcClient {
  import opened Wrappers
  import opened Errors
  import opened Strconv
  import opened GoValues
  import opened Encoding
  import opened Decoding
  import opened Tokens
  import opened Codec
  import opened Protocol

  const ShutDown := "the connection is shut down"
  const ConnectShutDown := "the connect is shut down"
  const NoResponse := "can not receive response"

  /** `client.seq++` on a uint64: one more, or 0 after the largest value. */
  function NextSeq(s: nat): (r: nat)
    requires s <= MaxUint64
    ensures r <= MaxUint64
    ensures s < MaxUint64 ==> r == s + 1
    ensures s == MaxUint64 ==> r == 0
  {
    (s + 1) % (MaxUint64 + 1)
  }

  /** Every key in use was issued at or before s. */
  predicate Issued(keys: set<nat>, s: nat)
  {
    forall k :: k in keys ==> k <= s
  }

  /** Below the largest value, the next number is not in use, and adding it keeps every key issued. */
  lemma NextSeqFresh(keys: set<nat>, s: nat)
    requires Issued(keys, s) && s < MaxUint64
    ensures NextSeq(s) !in keys && Issued(keys + {NextSeq(s)}, NextSeq(s))
  {
  }

  /** Once the counter wraps, the number it gives may be in use. */
  lemma WrapReusesZero()
    ensures Issued({0}, MaxUint64) && NextSeq(MaxUint64) in {0}
  {
  }

  /** `Query`: one call; `delivered` says that `done()` has put it on its `Done` channel. */
  class Query {
    const methodName: string
    const args: Value
    var reply: Option<Value>
    var error: Option<string>
    var seqNo: nat
    var delivered: bool

    /** `Query{Method: name, Args: args, Reply: reply, Error: nil, Done: make(chan *Query, 1)}`. */
    constructor (name: string, args: Value, reply: Option<Value>)
      ensures methodName == name && this.args == args && this.reply == reply
      ensures error.None? && seqNo == 0 && !delivered
    {
      methodName := name;
      this.args := args;
      this.reply := reply;
      error := None;
      seqNo := 0;
      delivered := false;
    }

    /** `done()`: the channel has room for one query; a second send is discarded. */
    method Done()
      modifies this
      ensures delivered && reply == old(reply) && error == old(error) && seqNo == old(seqNo)
    {
      if !delivered {
        delivered := true;
      }
    }
  }

  /** `ClientCodec`: the root-copy encoder and decoder over the client's connection. */
  class ClientCodec {
    const enc: Encoder
    const dec: Decoder
    var written: seq<string>
    var open: bool

    predicate Valid()
      reads this, dec
    {
      enc.variant == Root && dec.variant == Root && dec.Valid()
    }

    /** `InitCodec(conn)`. */
    constructor (tokens: seq<string>)
      ensures Valid() && dec.tokens == tokens && dec.pos == 0 && written == [] && open
      ensures fresh(enc) && fresh(dec)
    {
      enc := new Encoder(Root);
      dec := new Decoder(Root, tokens);
      written := [];
      open := true;
    }

    /** `WriteRequest(&req, data)`: the request frame, handed to the connection when both encodes succeed. */
    method WriteRequest(req: Request, data: Value) returns (err: Option<Error>)
      requires Valid()
      modifies this, enc
      ensures Valid() && open == old(open)
      ensures err == RequestFrame(req, data).err && enc.buf == RequestFrame(req, data).text
      ensures written == old(written) + Sent(RequestFrame(req, data))
    {
      err := EncodeFrame(enc, Ptr(Some(RequestValue(req))), data);
      if err.Some? {
        return;
      }
      written := written + [enc.buf];
    }

    /** `ReadResponseHeader(&resp)` with resp a zero `Response`. */
    method ReadResponseHeader() returns (resp: Response, err: Option<Error>)
      requires Valid()
      modifies dec
      ensures Valid()
      ensures var h := ResponseHeaderDecode(dec.tokens, old(dec.pos));
              dec.pos == h.pos && resp == ResponseOf(h.value) && err == h.err
    {
      var v;
      v, err := dec.JSONDecode(Ptr(Some(ResponseValue(Response(0, "")))));
      resp := ResponseOf(v);
    }

    /** `ReadResponseBody(data)`; `Ptr(None)` is a nil `*Data`. */
    method ReadResponseBody(data: Value) returns (v: Value, err: Option<Error>)
      requires Valid()
      modifies dec
      ensures Valid() && Decoded(v, dec.pos, err) == JSONDecode(Root, dec.tokens, old(dec.pos), data)
    {
      v, err := dec.JSONDecode(data);
    }

    method Close()
      modifies this
      ensures !open && written == old(written)
    {
      open := false;
    }
  }

  /** The header read at pos: a zero `Response`, decoded through its pointer. */
  function ResponseHeaderDecode(toks: seq<string>, pos: nat): Decoded
    requires pos <= |toks|
  {
    JSONDecode(Root, toks, pos, Ptr(Some(ResponseValue(Response(0, "")))))
  }

  // ---------------------------------------------------------------------------
  // One turn of Listen

  /** How a turn of `Listen` ends. */
  datatype Heard =
    | Unclaimed                                 // no pending call has that number
    | Refused(seqNo: nat, msg: string)          // the answer carries an error
    | Answered(seqNo: nat, reply: Option<Value>) // the body was decoded into the reply
    | Stopped(taken: Option<nat>, err: Error)   // the loop ends; Some(n) when call n was taken off the table first
    | Aborted(taken: Option<nat>, panic: Error) // the decoder panicked, which ends the process

  /**
   * One turn of `Listen` from pos, replies giving the `Reply` of every
   * pending call: where the next turn starts and how this one ends.
   */
  function ListenStep(replies: map<nat, Option<Value>>, toks: seq<string>, pos: nat): (r: (nat, Heard))
    requires pos <= |toks|
    ensures pos <= r.0 <= |toks|
    ensures !r.1.Stopped? && !r.1.Aborted? ==> pos < r.0
    ensures r.1.Stopped? ==> !r.1.err.Panic?
    ensures r.1.Aborted? ==> r.1.panic.Panic?
  {
    var h := ResponseHeaderDecode(toks, pos);
    var resp := ResponseOf(h.value);
    if Panicked(h.err) then (h.pos, Aborted(None, h.err.value))
    else if h.err.Some? then (h.pos, Stopped(None, h.err.value))
    else if resp.seqNo !in replies then (h.pos, Unclaimed)
    else if resp.error != "" then (h.pos, Refused(resp.seqNo, resp.error))
    else
      var b := JSONDecode(Root, toks, h.pos, Ptr(Some(DataValue(replies[resp.seqNo]))));
      if Panicked(b.err) then (b.pos, Aborted(Some(resp.seqNo), b.err.value))
      else if b.err.Some? then (b.pos, Stopped(Some(resp.seqNo), b.err.value))
      else (b.pos, Answered(resp.seqNo, ReplyOf(b.value)))
  }

  /** The number a turn takes off the table, if any. */
  function Taken(heard: Heard): Option<nat>
  {
    match heard
    case Unclaimed => None
    case Refused(n, _) => Some(n)
    case Answered(n, _) => Some(n)
    case Stopped(n, _) => n
    case Aborted(n, _) => n
  }

  /** The error a turn ends the loop with, if it does. */
  function Stop(heard: Heard): (r: Option<Error>)
    ensures r.Some? <==> heard.Stopped? || heard.Aborted?
    ensures heard.Stopped? ==> r == Some(heard.err)
    ensures heard.Aborted? ==> r == Some(heard.panic)
  {
    match heard
    case Stopped(_, e) => Some(e)
    case Aborted(_, e) => Some(e)
    case _ => None
  }

  /** A response header that is `{` `}` makes the decoder slice `}` as a member name, which panics. */
  lemma EmptyResponseHeaderPanics(replies: map<nat, Option<Value>>)
    ensures ListenStep(replies, ["{", "}"], 0) == (2, Aborted(None, Panic(SliceOutOfRange)))
  {
    var z := ResponseValue(Response(0, ""));
    assert Decode(Root, ["{", "}"], 0, z, true) == Decoded(z, 2, Some(Panic(SliceOutOfRange)));
  }

  /** Nil arguments make `WriteRequest` panic: the encoder dereferences a nil interface. */
  lemma NilArgsPanic(req: Request)
    ensures RequestFrame(req, Iface(None)).err == Some(Panic(ZeroValue))
  {
    RequestFrameText(req, Iface(None));
  }

  /** A turn takes off the table only a number that was on it. */
  lemma TakesPending(replies: map<nat, Option<Value>>, toks: seq<string>, pos: nat)
    requires pos <= |toks|
    ensures var t := Taken(ListenStep(replies, toks, pos).1); t.Some? ==> t.value in replies
  {
  }

  /**
   * An answer for no pending call, or one that carries an error: the body
   * is read with a nil `*Data`, which fails the pointer check, so no token
   * of it is consumed, and a refused call gets exactly the header's error.
   */
  lemma BodyLeftUnread(replies: map<nat, Option<Value>>, toks: seq<string>, pos: nat)
    requires pos <= |toks|
    requires ResponseHeaderDecode(toks, pos).err.None?
    ensures var h := ResponseHeaderDecode(toks, pos);
            var resp := ResponseOf(h.value);
            JSONDecode(Root, toks, h.pos, Ptr(None)) == Decoded(Ptr(None), h.pos, Some(InvalidPointer)) &&
            (resp.seqNo !in replies ==> ListenStep(replies, toks, pos) == (h.pos, Unclaimed)) &&
            (resp.seqNo in replies && resp.error != "" ==>
               ListenStep(replies, toks, pos) == (h.pos, Refused(resp.seqNo, resp.error)))
  {
  }

  /** At the end of the stream the header fails with "decode failed" and the loop ends. */
  lemma ListenAtEnd(replies: map<nat, Option<Value>>, toks: seq<string>)
    ensures ListenStep(replies, toks, |toks|) == (|toks|, Stopped(None, DecodeFailed))
  {
    var z := ResponseValue(Response(0, ""));
    assert Decode(Root, toks, |toks|, z, true) == Decoded(z, |toks|, Some(DecodeFailed));
  }

  /**
   * The header of an error answer the server wrote, for a pending call: that
   * call is refused with the server's text, when the text holds no quote,
   * backslash or newline (a strconv error's does, `NumErrorNotPlain`).
   */
  lemma ServerErrorHeard(replies: map<nat, Option<Value>>, toks: seq<string>, pos: nat, r: Response)
    requires TokensAt(toks, pos, ResponseToks(r)) && r.seqNo <= MaxInt64 && PlainText(r.error)
    requires r.seqNo in replies && r.error != ""
    ensures ListenStep(replies, toks, pos) == (pos + 9, Refused(r.seqNo, r.error))
  {
    ResponseRoundTrip(toks, pos, r);
  }

  // ---------------------------------------------------------------------------
  // The client

  /** `Client`: `pending`, `seq` and `closing` over one codec. */
  class Client {
    const codec: ClientCodec
    var pending: map<nat, Query>
    var seqNo: nat
    var closing: bool

    predicate Valid()
      reads this, codec, codec.dec
    {
      codec.Valid() && seqNo <= MaxUint64
    }

    /** The `Reply` of every pending call, as `Listen` decodes into it. */
    function Replies(): map<nat, Option<Value>>
      reads this, pending.Values
    {
      map k | k in pending :: pending[k].reply
    }

    /** `GetClient()` then `InitCodec(conn)`, the connection's input given by tokens. */
    constructor (tokens: seq<string>)
      ensures Valid() && pending == map[] && seqNo == 0 && !closing
      ensures codec.dec.tokens == tokens && codec.dec.pos == 0 && codec.written == []
    {
      codec := new ClientCodec(tokens);
      pending := map[];
      seqNo := 0;
      closing := false;
    }

    /** `SendRequest`: the write error is dropped by `Deal`. */
    method SendRequest(req: Request, data: Value) returns (err: Option<Error>)
      requires Valid()
      modifies codec, codec.enc
      ensures Valid() && codec.open == old(codec.open)
      ensures err == RequestFrame(req, data).err
      ensures codec.written == old(codec.written) + Sent(RequestFrame(req, data))
    {
      err := codec.WriteRequest(req, data);
    }

    /**
     * `Deal(query)`: on a closing client the call fails at once; otherwise
     * it gets the next number, goes on the table, and its request is sent.
     * panicked says that the encoder panicked, which ends the process; any
     * other write error is dropped.
     */
    method Deal(query: Query) returns (panicked: bool)
      requires Valid()
      modifies this, codec, codec.enc, query
      ensures Valid() && closing == old(closing) && codec.open == old(codec.open)
      ensures query.reply == old(query.reply)
      ensures old(closing) ==>
                pending == old(pending) && seqNo == old(seqNo) && codec.written == old(codec.written) &&
                query.delivered && query.error == Some(ShutDown) && query.seqNo == old(query.seqNo)
      ensures !old(closing) ==>
                seqNo == NextSeq(old(seqNo)) && pending == old(pending)[seqNo := query] && query.seqNo == seqNo &&
                query.error == old(query.error) && query.delivered == old(query.delivered) &&
                codec.written == old(codec.written) + Sent(RequestFrame(Request(query.methodName, seqNo), query.args))
      ensures !old(closing) && Issued(old(pending).Keys, old(seqNo)) && old(seqNo) < MaxUint64 ==>
                seqNo !in old(pending) && Issued(pending.Keys, seqNo)
      ensures panicked <==> !old(closing) && Panicked(RequestFrame(Request(query.methodName, seqNo), query.args).err)
    {
      if closing {
        query.Done();
        query.error := Some(ShutDown);
        return false;
      }
      ghost var keys := pending.Keys;
      seqNo := NextSeq(seqNo);
      pending := pending[seqNo := query];
      query.seqNo := seqNo;
      var req := Request(query.methodName, seqNo);
      if Issued(keys, old(seqNo)) && old(seqNo) < MaxUint64 {
        NextSeqFresh(keys, old(seqNo));
      }
      var err := SendRequest(req, query.args);
      panicked := err.Some? && err.value.Panic?;
    }

    /** One turn of the `Listen` loop; `stop` is the error that ends the loop. */
    method ListenOnce() returns (stop: Option<Error>)
      requires Valid()
      modifies this, codec.dec, pending.Values
      ensures Valid() && closing == old(closing) && seqNo == old(seqNo)
      ensures codec.written == old(codec.written) && codec.open == old(codec.open)
      ensures var s := ListenStep(old(Replies()), codec.dec.tokens, old(codec.dec.pos));
              codec.dec.pos == s.0 &&
              stop == Stop(s.1) &&
              pending == (if Taken(s.1).Some? then old(pending) - {Taken(s.1).value} else old(pending)) &&
              (s.1.Refused? ==> old(pending)[s.1.seqNo].error == Some(s.1.msg) && old(pending)[s.1.seqNo].delivered &&
                                old(pending)[s.1.seqNo].reply == old(pending[s.1.seqNo].reply)) &&
              (s.1.Answered? ==> old(pending)[s.1.seqNo].reply == s.1.reply && old(pending)[s.1.seqNo].delivered &&
                                 old(pending)[s.1.seqNo].error == old(pending[s.1.seqNo].error)) &&
              (forall q :: q in old(pending).Values && (s.1.Refused? || s.1.Answered? ==> q != old(pending)[s.1.seqNo]) ==>
                 q.reply == old(q.reply) && q.error == old(q.error) && q.delivered == old(q.delivered))
    {
      ghost var s := ListenStep(Replies(), codec.dec.tokens, codec.dec.pos);
      var resp, err := codec.ReadResponseHeader();
      if err.Some? {
        assert s.0 == codec.dec.pos && Taken(s.1).None? && Stop(s.1) == err;
        return err;
      }
      if resp.seqNo !in pending {
        var _, _ := codec.ReadResponseBody(Ptr(None));
        assert s == (codec.dec.pos, Unclaimed);
        return None;
      }
      var query := pending[resp.seqNo];
      pending := pending - {resp.seqNo};
      if resp.error != "" {
        var _, _ := codec.ReadResponseBody(Ptr(None));
        query.error := Some(resp.error);
        query.Done();
        assert s == (codec.dec.pos, Refused(resp.seqNo, resp.error));
        return None;
      }
      var data, berr := codec.ReadResponseBody(Ptr(Some(DataValue(query.reply))));
      if berr.Some? {
        return berr;
      }
      query.reply := ReplyOf(data);
      query.Done();
      stop := None;
    }

    /** The exit of `Listen`: the client is closing, and every call still on the table fails with err. */
    method FailPending(err: Error)
      requires Valid()
      modifies this, pending.Values
      ensures Valid() && closing && pending == old(pending) && seqNo == old(seqNo)
      ensures forall q :: q in pending.Values ==> q.error == Some(err.Text()) && q.delivered
    {
      closing := true;
      var left := pending.Values;
      while left != {}
        invariant Valid() && closing && pending == old(pending) && seqNo == old(seqNo)
        invariant left <= pending.Values
        invariant forall q :: q in pending.Values - left ==> q.error == Some(err.Text()) && q.delivered
        decreases left
      {
        var q :| q in left;
        q.error := Some(err.Text());
        q.Done();
        left := left - {q};
      }
    }

    /**
     * `Listen`: turns until one stops the loop, then `FailPending`.  A
     * panic of the decoder ends the process there, so nothing is failed.
     */
    method Listen() returns (err: Error)
      requires Valid()
      modifies this, codec.dec, pending.Values
      ensures Valid() && seqNo == old(seqNo)
      ensures codec.dec.pos <= |codec.dec.tokens|
      ensures pending.Keys <= old(pending).Keys
      ensures err.Panic? ==> closing == old(closing)
      ensures !err.Panic? ==> closing && forall q :: q in pending.Values ==> q.error == Some(err.Text()) && q.delivered
    {
      while true
        invariant Valid() && seqNo == old(seqNo) && closing == old(closing)
        invariant pending.Keys <= old(pending).Keys && pending.Values <= old(pending).Values
        decreases |codec.dec.tokens| - codec.dec.pos
      {
        var stop := ListenOnce();
        if stop.Some? {
          err := stop.value;
          break;
        }
      }
      if !err.Panic? {
        FailPending(err);
      }
    }

    /** `Close()`: refused on a closing client; otherwise the client is closing from now on. */
    method Close() returns (err: Option<string>)
      requires Valid()
      modifies this, codec
      ensures Valid() && pending == old(pending) && seqNo == old(seqNo) && closing
      ensures old(closing) ==> err == Some(ConnectShutDown) && codec.open == old(codec.open)
      ensures !old(closing) ==> err.None? && !codec.open
    {
      if closing {
        return Some(ConnectShutDown);
      }
      closing := true;
      codec.Close();
      err := None;
    }

    /**
     * `Call(name, args, reply)`: a fresh query is dealt; if it is already
     * done, its error is the answer, otherwise the first tick takes it off
     * the table and the call fails.  panicked says that `Deal` panicked
     * writing the request, which ends the process.
     */
    method Call(name: string, args: Value, reply: Option<Value>) returns (err: Option<string>, panicked: bool)
      requires Valid()
      modifies this, codec, codec.enc
      ensures Valid() && closing == old(closing)
      ensures old(closing) ==> err == Some(ShutDown) && pending == old(pending) && seqNo == old(seqNo)
      ensures !old(closing) ==> err == Some(NoResponse) && seqNo == NextSeq(old(seqNo)) &&
                                pending == old(pending) - {seqNo}
      ensures panicked <==> !old(closing) && Panicked(RequestFrame(Request(name, seqNo), args).err)
    {
      var query := new Query(name, args, reply);
      panicked := Deal(query);
      if query.delivered {
        return query.error, panicked;
      }
      pending := pending - {query.seqNo};
      var cnt := 0;
      cnt := cnt + 1;
      if cnt >= 1 {
        query.error := Some(NoResponse);
      } else {
        assert false;
      }
      err := query.error;
    }
  }
}

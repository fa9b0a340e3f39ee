/**
 * The messages the client and the server exchange: the two headers, the
 * body wrapper `Data`, and the frame both sides write to the connection
 * (the header, the body, then one space), all through the root copy of
 * the codec.
 */
module Protocol {
  import opened Wrappers
  import opened Strconv
  import opened GoValues
  import opened Encoding
  import opened Decoding
  import opened Tokens
  import opened Errors
  import opened Codec

  /** `Request`: the header of a call; `seq` is a uint64. */
  datatype Request = Request(methodName: string, seqNo: nat)

  /** `Response`: the header of an answer; an empty `error` means the call succeeded. */
  datatype Response = Response(seqNo: nat, error: string)

  function RequestValue(r: Request): Value
  {
    Struct([Field("MethodName", true, Str(r.methodName)), Field("Seq", true, Uint(r.seqNo))])
  }

  function ResponseValue(r: Response): Value
  {
    Struct([Field("Seq", true, Uint(r.seqNo)), Field("Error", true, Str(r.error))])
  }

  /** `Data{Reply: reply}`; `None` is a nil `any`. */
  function DataValue(reply: Option<Value>): Value
  {
    Struct([Field("Reply", true, Iface(reply))])
  }

  // ---------------------------------------------------------------------------
  // Reading a decoded header back

  function StrAt(fs: seq<Field>, k: nat): string
  {
    if k < |fs| && fs[k].value.Str? then fs[k].value.s else ""
  }

  function UintAt(fs: seq<Field>, k: nat): nat
  {
    if k < |fs| && fs[k].value.Uint? then fs[k].value.n else 0
  }

  /** The request a `*Request` points to after decode, even one decode left half-filled. */
  function RequestOf(v: Value): Request
  {
    if v.Ptr? && v.target.Some? && v.target.value.Struct? then
      Request(StrAt(v.target.value.fields, 0), UintAt(v.target.value.fields, 1))
    else Request("", 0)
  }

  /** The response a `*Response` points to after decode. */
  function ResponseOf(v: Value): Response
  {
    if v.Ptr? && v.target.Some? && v.target.value.Struct? then
      Response(UintAt(v.target.value.fields, 0), StrAt(v.target.value.fields, 1))
    else Response(0, "")
  }

  /** The reply a `*Data` holds after decode. */
  function ReplyOf(v: Value): Option<Value>
  {
    if v.Ptr? && v.target.Some? && v.target.value.Struct? && |v.target.value.fields| > 0
       && v.target.value.fields[0].value.Iface?
    then v.target.value.fields[0].value.dynamic
    else None
  }

  lemma ViewsOfValues(q: Request, s: Response, reply: Option<Value>)
    ensures RequestOf(Ptr(Some(RequestValue(q)))) == q
    ensures ResponseOf(Ptr(Some(ResponseValue(s)))) == s
    ensures ReplyOf(Ptr(Some(DataValue(reply)))) == reply
  {
  }

  // ---------------------------------------------------------------------------
  // Frames

  /**
   * What `WriteRequest` and `WirteResponse` hand to the connection: a fresh
   * buffer gets the header, then the body, then one space.  When either
   * encode fails, its error is returned and nothing reaches the connection.
   */
  function Frame(header: Value, body: Value): (r: Encoded)
    ensures r.err.None? <==> JSONEncode(Root, header).err.None? && JSONEncode(Root, body).err.None?
    ensures r.err.None? ==> r.text == JSONEncode(Root, header).text + JSONEncode(Root, body).text + " "
    ensures JSONEncode(Root, header).err.Some? ==> r.err == JSONEncode(Root, header).err
  {
    Then(Then(JSONEncode(Root, header), JSONEncode(Root, body)), Lit(" "))
  }

  /** The frames a write hands to the connection: one, or none when encoding failed. */
  function Sent(f: Encoded): seq<string>
  {
    if f.err.None? then [f.text] else []
  }

  /** An error that is a panic, which ends the process instead of being returned. */
  predicate Panicked(e: Option<Error>)
  {
    e.Some? && e.value.Panic?
  }

  /** The encoder side of both writes: a fresh buffer, the header, the body, then the space. */
  method EncodeFrame(enc: Encoder, header: Value, body: Value) returns (err: Option<Error>)
    requires enc.variant == Root
    modifies enc
    ensures err == Frame(header, body).err && enc.buf == Frame(header, body).text
  {
    ghost var h := JSONEncode(Root, header);
    ghost var b := JSONEncode(Root, body);
    enc.buf := "";
    err := enc.JSONEncode(header);
    assert enc.buf == h.text by {
      assert "" + h.text == h.text;
    }
    if err.Some? {
      return;
    }
    err := enc.JSONEncode(body);
    assert Then(h, b) == Encoded(h.text + b.text, b.err);
    if err.Some? {
      return;
    }
    enc.buf := enc.buf + " ";
  }

  /** `WriteRequest(&req, args)`: args is the caller's `any`. */
  function RequestFrame(req: Request, args: Value): Encoded
  {
    Frame(Ptr(Some(RequestValue(req))), args)
  }

  /** `WirteResponse(&resp, &Data{reply})`. */
  function ResponseFrame(resp: Response, reply: Option<Value>): Encoded
  {
    Frame(Ptr(Some(ResponseValue(resp))), Ptr(Some(DataValue(reply))))
  }

  /** The text of a string field: an empty string is `null`, any other is quoted as it is. */
  function StrTok(s: string): string
  {
    if s == "" then "null" else Quote(s)
  }

  /** One `"Name":value` member of a struct's text. */
  function Member(name: string, text: string): string
  {
    "\"" + name + "\":" + text
  }

  function RequestText(r: Request): string
  {
    "{" + Member("MethodName", StrTok(r.methodName)) + "," + Member("Seq", NatToDecimal(r.seqNo)) + "}"
  }

  function ResponseText(r: Response): string
  {
    "{" + Member("Seq", NatToDecimal(r.seqNo)) + "," + Member("Error", StrTok(r.error)) + "}"
  }

  /** A struct of two exported scalar fields is its two members, a comma between them, in braces. */
  lemma TwoScalarFields(f0: Field, f1: Field)
    requires f0.exported && f1.exported && ScalarKind(f0.value) && ScalarKind(f1.value)
    ensures Encode(Root, Struct([f0, f1]))
         == Lit("{" + Member(f0.name, Encode(Root, f0.value).text) + "," + Member(f1.name, Encode(Root, f1.value).text) + "}")
  {
    var fs := [f0, f1];
    var e0 := Encode(Root, f0.value);
    var e1 := Encode(Root, f1.value);
    var a := Member(f0.name, e0.text);
    var b := Member(f1.name, e1.text);
    assert EncodeFields(Root, fs, 1, false) == Lit("," + b) by {
      FieldHead(Root, fs, 1, false);
      assert EncodeFields(Root, fs, 2, false) == Lit("");
      HeadSplit(",", f1.name);
      Assoc3(",", "\"" + f1.name + "\":", e1.text);
    }
    assert EncodeFields(Root, fs, 0, true) == Lit(a + ("," + b)) by {
      FieldHead(Root, fs, 0, true);
      assert "" + "\"" == "\"";
    }
    assert "{" + (a + ("," + b)) == "{" + a + "," + b by {
      Assoc3(a, ",", b);
      Assoc4("{", a, ",", b);
    }
    assert Encode(Root, Struct(fs)) == Then(Then(Lit("{"), EncodeFields(Root, fs, 0, true)), Lit("}"));
  }

  lemma StrText(s: string)
    ensures Encode(Root, Str(s)) == Lit(StrTok(s))
  {
  }

  /** A request header always encodes, as `{"MethodName":name,"Seq":n}`. */
  lemma RequestHeaderText(r: Request)
    ensures JSONEncode(Root, Ptr(Some(RequestValue(r)))) == Lit(RequestText(r))
  {
    var v := RequestValue(r);
    assert JSONEncode(Root, Ptr(Some(v))) == Encode(Root, v) by {
      assert Encode(Root, Ptr(Some(v))) == EncodeReferent(v);
      ReferentOfTarget(v);
    }
    StrText(r.methodName);
    assert Encode(Root, Uint(r.seqNo)).text == NatToDecimal(r.seqNo);
    TwoScalarFields(Field("MethodName", true, Str(r.methodName)), Field("Seq", true, Uint(r.seqNo)));
  }

  /** A response header always encodes, as `{"Seq":n,"Error":msg}`. */
  lemma ResponseHeaderText(r: Response)
    ensures JSONEncode(Root, Ptr(Some(ResponseValue(r)))) == Lit(ResponseText(r))
  {
    var v := ResponseValue(r);
    assert JSONEncode(Root, Ptr(Some(v))) == Encode(Root, v) by {
      assert Encode(Root, Ptr(Some(v))) == EncodeReferent(v);
      ReferentOfTarget(v);
    }
    StrText(r.error);
    assert Encode(Root, Uint(r.seqNo)).text == NatToDecimal(r.seqNo);
    TwoScalarFields(Field("Seq", true, Uint(r.seqNo)), Field("Error", true, Str(r.error)));
  }

  /** A struct of one exported field: its member in braces, or the field's error. */
  lemma OneField(f: Field)
    requires f.exported
    ensures Encode(Root, Struct([f])).err == Encode(Root, f.value).err
    ensures Encode(Root, Struct([f])).err.None? ==> Encode(Root, Struct([f])).text == "{" + Member(f.name, Encode(Root, f.value).text) + "}"
  {
    var e := Encode(Root, f.value);
    var inner := EncodeFields(Root, [f], 0, true);
    assert EncodeFields(Root, [f], 1, false) == Lit("");
    assert inner.err == e.err;
    assert e.err.None? ==> inner.text == Member(f.name, e.text) by {
      assert "" + "\"" + f.name + "\":" == "\"" + f.name + "\":";
    }
  }

  /** The body of an error response, `Data{nil}`, is `{"Reply":null}`. */
  lemma ErrorBodyText()
    ensures JSONEncode(Root, Ptr(Some(DataValue(None)))) == Lit("{\"Reply\":null}")
  {
    var d := DataValue(None);
    assert JSONEncode(Root, Ptr(Some(d))) == Encode(Root, d) by {
      assert Encode(Root, Ptr(Some(d))) == EncodeReferent(d);
      ReferentOfTarget(d);
    }
    OneField(Field("Reply", true, Iface(None)));
  }

  /** The body of a reply, `Data{reply}` with reply a non-nil pointer: the text of the pointer chain's referent under `Reply`, or its error. */
  lemma ReplyBodyText(x: Value)
    ensures JSONEncode(Root, Ptr(Some(DataValue(Some(Ptr(Some(x))))))).err == EncodeReferent(x).err
    ensures EncodeReferent(x).err.None? ==>
              JSONEncode(Root, Ptr(Some(DataValue(Some(Ptr(Some(x))))))).text == "{" + Member("Reply", EncodeReferent(x).text) + "}"
  {
    var d := DataValue(Some(Ptr(Some(x))));
    assert JSONEncode(Root, Ptr(Some(d))) == Encode(Root, d) by {
      assert Encode(Root, Ptr(Some(d))) == EncodeReferent(d);
      ReferentOfTarget(d);
    }
    assert Encode(Root, Iface(Some(Ptr(Some(x))))) == EncodeReferent(x);
    OneField(Field("Reply", true, Iface(Some(Ptr(Some(x))))));
  }

  /** An error response is always written, as the header, `{"Reply":null}` and a space. */
  lemma ErrorResponseFrame(seqNo: nat, msg: string)
    ensures ResponseFrame(Response(seqNo, msg), None) == Lit(ResponseText(Response(seqNo, msg)) + "{\"Reply\":null}" + " ")
  {
    ResponseHeaderText(Response(seqNo, msg));
    ErrorBodyText();
  }

  /** A request frame fails exactly when the arguments do not encode; otherwise it is the header's text, the arguments' text and a space. */
  lemma RequestFrameText(req: Request, args: Value)
    ensures RequestFrame(req, args).err == JSONEncode(Root, args).err
    ensures RequestFrame(req, args).err.None? ==>
              RequestFrame(req, args).text == RequestText(req) + JSONEncode(Root, args).text + " "
  {
    RequestHeaderText(req);
  }

  /** A reply frame fails exactly when the reply's referent does not encode. */
  lemma ReplyFrameText(seqNo: nat, x: Value)
    ensures ResponseFrame(Response(seqNo, ""), Some(Ptr(Some(x)))).err == EncodeReferent(x).err
    ensures EncodeReferent(x).err.None? ==>
              ResponseFrame(Response(seqNo, ""), Some(Ptr(Some(x)))).text
              == ResponseText(Response(seqNo, "")) + "{" + Member("Reply", EncodeReferent(x).text) + "}" + " "
  {
    ResponseHeaderText(Response(seqNo, ""));
    ReplyBodyText(x);
  }

  // ---------------------------------------------------------------------------
  // Reading a header back

  /**
   * How the scanner splits a request header's text, when the method name
   * holds no quote, backslash or newline: the encoder writes a string
   * between quotes without escaping it, so such a character splits the
   * string's token differently.
   */
  function RequestToks(r: Request): seq<string>
  {
    ["{", Quote("MethodName"), ":", StrTok(r.methodName), ",", Quote("Seq"), ":", NatToDecimal(r.seqNo), "}"]
  }

  /**
   * How the scanner splits a response header's text, when the error text
   * holds no quote, backslash or newline (see `RequestToks`).
   */
  function ResponseToks(r: Response): seq<string>
  {
    ["{", Quote("Seq"), ":", NatToDecimal(r.seqNo), ",", Quote("Error"), ":", StrTok(r.error), "}"]
  }

  /** A string field's token decodes, in place, into the string it was encoded from; `null` leaves the empty string. */
  lemma StrTokDecodes(vr: Variant, toks: seq<string>, pos: nat, s: string)
    requires pos < |toks| && toks[pos] == StrTok(s)
    ensures Decode(vr, toks, pos, Str(""), true) == Decoded(Str(s), pos + 1, None)
  {
    if s != "" {
      StrToken(vr, toks, pos, s, "");
    }
  }

  /** A pointer to a struct, decoded at a `{`: the struct loop, behind the pointer. */
  lemma PointerToStruct(toks: seq<string>, p: nat, fs: seq<Field>)
    requires p < |toks| && toks[p] == "{"
    ensures Decode(Root, toks, p, Ptr(Some(Struct(fs))), false)
         == var d := StructLoop(Root, toks, p + 1, fs, true); Decoded(Ptr(Some(d.value)), d.pos, d.err)
  {
    assert Decode(Root, toks, p, Struct(fs), true) == DecodeStruct(Root, toks, p, Struct(fs), true);
  }

  lemma RequestFirstMember(toks: seq<string>, p: nat, r: Request)
    requires TokensAt(toks, p, RequestToks(r)) && PlainText(r.methodName)
    ensures StructLoop(Root, toks, p + 1, RequestValue(Request("", 0)).fields, true)
         == StructLoop(Root, toks, p + 5, RequestValue(Request(r.methodName, 0)).fields, true)
  {
    var fs := RequestValue(Request("", 0)).fields;
    assert toks[p + 1] == Quote("MethodName") && toks[p + 2] == ":" && toks[p + 3] == StrTok(r.methodName) && toks[p + 4] == "," by {
      assert toks[p..p + 9][1] == toks[p + 1] && toks[p..p + 9][2] == toks[p + 2];
      assert toks[p..p + 9][3] == toks[p + 3] && toks[p..p + 9][4] == toks[p + 4];
    }
    assert MemberDecodes(Root, toks, p + 1, fs, 0, Str(r.methodName), p + 4) by {
      StrTokDecodes(Root, toks, p + 3, r.methodName);
    }
    MemberThenComma(Root, toks, p + 1, fs, 0, Str(r.methodName), p + 4);
    assert fs[0 := fs[0].(value := Str(r.methodName))] == RequestValue(Request(r.methodName, 0)).fields;
  }

  lemma RequestLastMember(toks: seq<string>, p: nat, r: Request)
    requires TokensAt(toks, p, RequestToks(r)) && r.seqNo <= MaxInt64
    ensures StructLoop(Root, toks, p + 5, RequestValue(Request(r.methodName, 0)).fields, true)
         == Decoded(RequestValue(r), p + 9, None)
  {
    var fs := RequestValue(Request(r.methodName, 0)).fields;
    assert toks[p + 5] == Quote("Seq") && toks[p + 6] == ":" && toks[p + 7] == NatToDecimal(r.seqNo) && toks[p + 8] == "}" by {
      assert toks[p..p + 9][5] == toks[p + 5] && toks[p..p + 9][6] == toks[p + 6];
      assert toks[p..p + 9][7] == toks[p + 7] && toks[p..p + 9][8] == toks[p + 8];
    }
    assert MemberDecodes(Root, toks, p + 5, fs, 1, Uint(r.seqNo), p + 8) by {
      UintToken(Root, toks, p + 7, r.seqNo, 0);
    }
    MemberThenClose(Root, toks, p + 5, fs, 1, Uint(r.seqNo), p + 8);
    assert fs[1 := fs[1].(value := Uint(r.seqNo))] == RequestValue(r).fields;
  }

  /**
   * The server reads back the header the client wrote: the tokens of a
   * request header, decoded into a zero `Request`, give that request, and
   * exactly those nine tokens are consumed.  The sequence number must fit
   * an int64, since the decoder parses it with `Atoi`, and the method name
   * must hold no quote, backslash or newline, for the tokens to be these.
   */
  lemma RequestRoundTrip(toks: seq<string>, p: nat, r: Request)
    requires TokensAt(toks, p, RequestToks(r)) && r.seqNo <= MaxInt64 && PlainText(r.methodName)
    ensures JSONDecode(Root, toks, p, Ptr(Some(RequestValue(Request("", 0))))) == Decoded(Ptr(Some(RequestValue(r))), p + 9, None)
    ensures RequestOf(Ptr(Some(RequestValue(r)))) == r
  {
    assert toks[p] == "{" by {
      assert toks[p..p + 9][0] == toks[p];
    }
    PointerToStruct(toks, p, RequestValue(Request("", 0)).fields);
    RequestFirstMember(toks, p, r);
    RequestLastMember(toks, p, r);
  }

  lemma ResponseFirstMember(toks: seq<string>, p: nat, r: Response)
    requires TokensAt(toks, p, ResponseToks(r)) && r.seqNo <= MaxInt64 && PlainText(r.error)
    ensures StructLoop(Root, toks, p + 1, ResponseValue(Response(0, "")).fields, true)
         == StructLoop(Root, toks, p + 5, ResponseValue(Response(r.seqNo, "")).fields, true)
  {
    var fs := ResponseValue(Response(0, "")).fields;
    assert toks[p + 1] == Quote("Seq") && toks[p + 2] == ":" && toks[p + 3] == NatToDecimal(r.seqNo) && toks[p + 4] == "," by {
      assert toks[p..p + 9][1] == toks[p + 1] && toks[p..p + 9][2] == toks[p + 2];
      assert toks[p..p + 9][3] == toks[p + 3] && toks[p..p + 9][4] == toks[p + 4];
    }
    assert MemberDecodes(Root, toks, p + 1, fs, 0, Uint(r.seqNo), p + 4) by {
      UintToken(Root, toks, p + 3, r.seqNo, 0);
    }
    MemberThenComma(Root, toks, p + 1, fs, 0, Uint(r.seqNo), p + 4);
    assert fs[0 := fs[0].(value := Uint(r.seqNo))] == ResponseValue(Response(r.seqNo, "")).fields;
  }

  lemma ResponseLastMember(toks: seq<string>, p: nat, r: Response)
    requires TokensAt(toks, p, ResponseToks(r)) && PlainText(r.error)
    ensures StructLoop(Root, toks, p + 5, ResponseValue(Response(r.seqNo, "")).fields, true)
         == Decoded(ResponseValue(r), p + 9, None)
  {
    var fs := ResponseValue(Response(r.seqNo, "")).fields;
    assert toks[p + 5] == Quote("Error") && toks[p + 6] == ":" && toks[p + 7] == StrTok(r.error) && toks[p + 8] == "}" by {
      assert toks[p..p + 9][5] == toks[p + 5] && toks[p..p + 9][6] == toks[p + 6];
      assert toks[p..p + 9][7] == toks[p + 7] && toks[p..p + 9][8] == toks[p + 8];
    }
    assert MemberDecodes(Root, toks, p + 5, fs, 1, Str(r.error), p + 8) by {
      StrTokDecodes(Root, toks, p + 7, r.error);
    }
    MemberThenClose(Root, toks, p + 5, fs, 1, Str(r.error), p + 8);
    assert fs[1 := fs[1].(value := Str(r.error))] == ResponseValue(r).fields;
  }

  /**
   * The client reads back the header the server wrote, and exactly its nine
   * tokens, when the error text holds no quote, backslash or newline.
   */
  lemma ResponseRoundTrip(toks: seq<string>, p: nat, r: Response)
    requires TokensAt(toks, p, ResponseToks(r)) && r.seqNo <= MaxInt64 && PlainText(r.error)
    ensures JSONDecode(Root, toks, p, Ptr(Some(ResponseValue(Response(0, ""))))) == Decoded(Ptr(Some(ResponseValue(r))), p + 9, None)
    ensures ResponseOf(Ptr(Some(ResponseValue(r)))) == r
  {
    assert toks[p] == "{" by {
      assert toks[p..p + 9][0] == toks[p];
    }
    PointerToStruct(toks, p, ResponseValue(Response(0, "")).fields);
    ResponseFirstMember(toks, p, r);
    ResponseLastMember(toks, p, r);
  }

  lemma ConcatFrom(ts: seq<string>, k: nat)
    requires k < |ts|
    ensures Concat(ts[k..]) == ts[k] + Concat(ts[k + 1..])
  {
    assert ts[k..][1..] == ts[k + 1..];
  }

  /** Nine tokens `{ n : a , m : b }` run together. */
  lemma NineToks(n: string, a: string, m: string, b: string)
    ensures Concat(["{", Quote(n), ":", a, ",", Quote(m), ":", b, "}"]) == "{" + Member(n, a) + "," + Member(m, b) + "}"
  {
    var ts := ["{", Quote(n), ":", a, ",", Quote(m), ":", b, "}"];
    assert Concat(ts[9..]) == "";
    ConcatFrom(ts, 8);
    ConcatFrom(ts, 7);
    ConcatFrom(ts, 6);
    ConcatFrom(ts, 5);
    assert Concat(ts[5..]) == Member(m, b) + "}";
    ConcatFrom(ts, 4);
    ConcatFrom(ts, 3);
    ConcatFrom(ts, 2);
    ConcatFrom(ts, 1);
    assert Concat(ts[1..]) == Member(n, a) + "," + Member(m, b) + "}";
    ConcatFrom(ts, 0);
  }

  /**
   * The text of a strconv error holds its input between quotes, so the
   * server's answer to arguments that do not parse carries an error text
   * that is not plain: its header is not split as `ResponseToks` says.
   */
  lemma NumErrorNotPlain(e: Error)
    requires e.NumSyntax? || e.NumRange?
    ensures !PlainText(e.Text())
  {
    var k := |"strconv." + e.fn + ": parsing "|;
    assert e.Text()[k] == '"';
  }

  /** The scanner's tokens of a header, run together, are the header's text. */
  lemma HeaderToksText(q: Request, s: Response)
    ensures Concat(RequestToks(q)) == RequestText(q)
    ensures Concat(ResponseToks(s)) == ResponseText(s)
  {
    NineToks("MethodName", StrTok(q.methodName), "Seq", NatToDecimal(q.seqNo));
    NineToks("Seq", NatToDecimal(s.seqNo), "Error", StrTok(s.error));
  }
}

/**
 * The two codec objects as the source has them: an `Encoder` that appends to
 * its buffer step by step, and a `Decoder` that pulls tokens one at a time.
 * Each method is proved to do exactly what the functions of `Encoding` and
 * `Decoding` describe; the properties of the codec are proved about those
 * functions.  `variant` says which of the two copies of the codec an object
 * belongs to.
 */
module Codec {
  import opened Wrappers
  import opened Errors
  import opened Strconv
  import opened GoValues
  import opened Encoding
  import opened Decoding

  /** `Encoder`, whose `bytes.Buffer` is `buf`. */
  class Encoder {
    const variant: Variant
    var buf: string

    constructor (variant: Variant)
      ensures this.variant == variant && buf == ""
    {
      this.variant := variant;
      buf := "";
    }

    /** `JSONEncode(data)`. */
    method JSONEncode(arg: Value) returns (err: Option<Error>)
      modifies this
      ensures buf == old(buf) + Encoding.JSONEncode(variant, arg).text
      ensures err == Encoding.JSONEncode(variant, arg).err
    {
      if arg == Iface(None) {
        err := Some(Panic(ZeroValue));
      } else {
        err := Encode(arg);
      }
    }

    /** `encode(data)`: append the text of v, stopping at the first error. */
    method Encode(v: Value) returns (err: Option<Error>)
      modifies this
      ensures buf == old(buf) + Encoding.Encode(variant, v).text
      ensures err == Encoding.Encode(variant, v).err
      decreases v, 1
    {
      match v
      case Int(i) =>
        buf := buf + IntToDecimal(i);
        err := None;
      case Uint(n) =>
        buf := buf + NatToDecimal(n);
        err := None;
      case Bool(b) =>
        buf := buf + FormatBool(b);
        err := None;
      case Str(s) =>
        if s == "" {
          buf := buf + "null";
        } else {
          buf := buf + "\"" + s + "\"";
        }
        err := None;
      case Slice(_, isNil, _) =>
        if isNil {
          buf := buf + "null";
          err := None;
        } else {
          err := EncodeList(v);
        }
      case Array(_) =>
        if IsZero(v) {
          buf := buf + "null";
          err := None;
        } else {
          err := EncodeList(v);
        }
      case Map(_, _, isNil, _) =>
        if isNil {
          buf := buf + "null";
          err := None;
        } else {
          err := EncodeMap(v);
        }
      case Ptr(p) =>
        if p.None? {
          buf := buf + "null";
          err := None;
        } else if variant == Root {
          err := EncodeChain(v);
        } else {
          err := Encode(p.value);
        }
      case Iface(d) =>
        if d.None? {
          buf := buf + "null";
          err := None;
        } else {
          err := Encode(d.value);
        }
      case Struct(_) =>
        err := EncodeStruct(v);
      case Unsupported(kind, _) =>
        err := Some(UnsupportedType(kind));
    }

    /** The root copy's pointer case: `for data.Kind() == reflect.Pointer { data = data.Elem() }`, then encode. */
    method EncodeChain(v: Value) returns (err: Option<Error>)
      requires variant == Root && v.Ptr? && v.target.Some?
      modifies this
      ensures buf == old(buf) + Encoding.Encode(variant, v).text
      ensures err == Encoding.Encode(variant, v).err
      decreases v, 0
    {
      var cur := v.target;
      while cur.Some? && cur.value.Ptr?
        invariant cur.Some? ==> cur.value < v
        invariant cur.Some? ==> EncodeReferent(cur.value) == Encoding.Encode(Root, v)
        invariant cur.None? ==> Encoding.Encode(Root, v) == Encoded("", Some(Panic(ZeroValue)))
        decreases cur
      {
        cur := cur.value.target;
      }
      if cur.None? {
        err := Some(Panic(ZeroValue));
      } else {
        err := Encode(cur.value);
      }
    }

    /** The slice and array cases: `[`, the elements separated by `,`, `]`. */
    method EncodeList(v: Value) returns (err: Option<Error>)
      requires (v.Slice? && !v.isNil) || (v.Array? && !IsZero(v))
      modifies this
      ensures buf == old(buf) + Encoding.Encode(variant, v).text
      ensures err == Encoding.Encode(variant, v).err
      decreases v, 0
    {
      var es := v.elems;
      ghost var whole := Encoding.Encode(variant, v);
      ListOpens(variant, v);
      buf := buf + "[";
      ghost var out := "[";
      var i := 0;
      while i < |es|
        invariant 0 <= i <= |es|
        invariant buf == old(buf) + out
        invariant Then(Then(Lit(out), EncodeElems(variant, es, i)), Lit("]")) == whole
      {
        ghost var e := Encoding.Encode(variant, es[i]);
        var sep := if i > 0 then "," else "";
        ElemStep(variant, es, i, out, "]");
        buf := buf + sep;
        err := Encode(es[i]);
        Assoc4(old(buf), out, sep, e.text);
        out := out + sep + e.text;
        if err.Some? {
          assert whole == Encoded(out, e.err);
          return;
        }
        assert Then(Then(Lit(out), EncodeElems(variant, es, i + 1)), Lit("]")) == whole;
        i := i + 1;
      }
      assert whole == Lit(out + "" + "]") by {
        assert EncodeElems(variant, es, |es|) == Lit("");
      }
      assert out + "" == out;
      buf := buf + "]";
      Assoc3(old(buf), out, "]");
      err := None;
    }

    /** The map case: `{`, then `key:value` per entry in enumeration order, separated by `,`, then `}`. */
    method EncodeMap(v: Value) returns (err: Option<Error>)
      requires v.Map? && !v.isNil
      modifies this
      ensures buf == old(buf) + Encoding.Encode(variant, v).text
      ensures err == Encoding.Encode(variant, v).err
      decreases v, 0
    {
      var es := v.entries;
      ghost var whole := Encoding.Encode(variant, v);
      assert whole == Then(Then(Lit("{"), EncodeEntries(variant, es, 0)), Lit("}"));
      buf := buf + "{";
      ghost var out := "{";
      var i := 0;
      while i < |es|
        invariant 0 <= i <= |es|
        invariant buf == old(buf) + out
        invariant Then(Then(Lit(out), EncodeEntries(variant, es, i)), Lit("}")) == whole
      {
        EntryStep(variant, es, i, out);
        var sep := if i > 0 then "," else "";
        buf := buf + sep;
        err := EncodeEntry(es[i]);
        ghost var e := Entry(variant, es[i]);
        Assoc4(old(buf), out, sep, e.text);
        out := out + sep + e.text;
        if err.Some? {
          return;
        }
        i := i + 1;
      }
      assert whole == Lit(out + "" + "}") by {
        assert EncodeEntries(variant, es, |es|) == Lit("");
      }
      assert out + "" == out;
      buf := buf + "}";
      Assoc3(old(buf), out, "}");
      err := None;
    }

    /** One entry of the map case: the key (quoted unless a string), `:`, the value. */
    method EncodeEntry(e: (Value, Value)) returns (err: Option<Error>)
      modifies this
      ensures buf == old(buf) + Entry(variant, e).text
      ensures err == Entry(variant, e).err
      decreases e, 3
    {
      assert e.0 < e && e.1 < e;
      ghost var k := EncodeKey(variant, e.0);
      ghost var x := EncodeMapValue(variant, e.1);
      assert k == Quoted(variant, e.0, !e.0.Str?);
      var quoted := variant == Root && !e.1.Str? && !e.1.Struct?;
      assert x == Quoted(variant, e.1, quoted);
      err := EncodeQuoted(e.0, !e.0.Str?);
      if err.Some? {
        return;
      }
      buf := buf + ":";
      err := EncodeQuoted(e.1, quoted);
      Assoc3(old(buf), k.text, ":");
      Assoc3(old(buf), k.text + ":", x.text);
    }

    /** A map key or value, between quotes when `quoted`. */
    method EncodeQuoted(x: Value, quoted: bool) returns (err: Option<Error>)
      modifies this
      ensures buf == old(buf) + Quoted(variant, x, quoted).text
      ensures err == Quoted(variant, x, quoted).err
      decreases x, 2
    {
      ghost var e := Encoding.Encode(variant, x);
      if !quoted {
        err := Encode(x);
        return;
      }
      buf := buf + "\"";
      err := Encode(x);
      Assoc3(old(buf), "\"", e.text);
      assert Then(Lit("\""), e) == Encoded("\"" + e.text, e.err);
      if err.Some? {
        return;
      }
      buf := buf + "\"";
      Assoc3(old(buf), "\"" + e.text, "\"");
    }

    /** The struct case: `{`, then `"Name":value` per exported field, separated by `,`, then `}`. */
    method EncodeStruct(v: Value) returns (err: Option<Error>)
      requires v.Struct?
      modifies this
      ensures buf == old(buf) + Encoding.Encode(variant, v).text
      ensures err == Encoding.Encode(variant, v).err
      decreases v, 0
    {
      var fs := v.fields;
      ghost var whole := Encoding.Encode(variant, v);
      buf := buf + "{";
      ghost var out := "{";
      var flag := true;
      var i := 0;
      while i < |fs|
        invariant 0 <= i <= |fs|
        invariant buf == old(buf) + out
        invariant Then(Then(Lit(out), EncodeFields(variant, fs, i, flag)), Lit("}")) == whole
      {
        if !fs[i].exported {
          i := i + 1;
          continue;
        }
        FieldStep(variant, fs, i, flag, out);
        var head := (if flag then "" else ",") + "\"" + fs[i].name + "\":";
        flag := false;
        buf := buf + head;
        err := Encode(fs[i].value);
        Assoc4(old(buf), out, head, Encoding.Encode(variant, fs[i].value).text);
        out := out + head + Encoding.Encode(variant, fs[i].value).text;
        if err.Some? {
          return;
        }
        i := i + 1;
      }
      assert whole == Lit(out + "" + "}") by {
        assert EncodeFields(variant, fs, |fs|, flag) == Lit("");
      }
      assert out + "" == out;
      buf := buf + "}";
      Assoc3(old(buf), out, "}");
      err := None;
    }
  }

  /** x's text, between quotes when q. */
  function Quoted(vr: Variant, x: Value, q: bool): Encoded
  {
    if q then Then(Then(Lit("\""), Encoding.Encode(vr, x)), Lit("\"")) else Encoding.Encode(vr, x)
  }

  /** One element of the list loop: its separator and text are appended, and on an error nothing more. */
  /** A non-nil slice or non-zero array is its elements between brackets. */
  lemma ListOpens(vr: Variant, v: Value)
    requires (v.Slice? && !v.isNil) || (v.Array? && !IsZero(v))
    ensures Encoding.Encode(vr, v) == Then(Then(Lit("["), EncodeElems(vr, v.elems, 0)), Lit("]"))
  {
    if v.Array? {
      assert !IsZero(Array(v.elems));
    }
  }

  lemma ElemStep(vr: Variant, es: seq<Value>, i: nat, out: string, close: string)
    requires i < |es|
    ensures var e := Encoding.Encode(vr, es[i]);
            var out' := out + (if i > 0 then "," else "") + e.text;
            Then(Then(Lit(out), EncodeElems(vr, es, i)), Lit(close))
            == if e.err.Some? then Encoded(out', e.err) else Then(Then(Lit(out'), EncodeElems(vr, es, i + 1)), Lit(close))
  {
    var e := Encoding.Encode(vr, es[i]);
    var sep := if i > 0 then "," else "";
    var r := EncodeElems(vr, es, i + 1);
    assert EncodeElems(vr, es, i) == Then(Then(Lit(sep), e), r);
    if e.err.Some? {
      assert Then(Then(Lit(sep), e), r) == Encoded(sep + e.text, e.err);
      Assoc3(out, sep, e.text);
    } else {
      assert Then(Then(Lit(sep), e), r) == Encoded(sep + e.text + r.text, r.err);
      Assoc4(out, sep, e.text, r.text);
    }
  }

  /** The text of one map entry. */
  function Entry(vr: Variant, e: (Value, Value)): Encoded
  {
    Then(Then(EncodeKey(vr, e.0), Lit(":")), EncodeMapValue(vr, e.1))
  }

  /** One entry of the map loop: its separator and text are appended, and on an error nothing more. */
  lemma EntryStep(vr: Variant, es: seq<(Value, Value)>, i: nat, out: string)
    requires i < |es|
    ensures var e := Entry(vr, es[i]);
            var out' := out + (if i > 0 then "," else "") + e.text;
            Then(Then(Lit(out), EncodeEntries(vr, es, i)), Lit("}"))
            == if e.err.Some? then Encoded(out', e.err) else Then(Then(Lit(out'), EncodeEntries(vr, es, i + 1)), Lit("}"))
  {
    var e := Entry(vr, es[i]);
    var sep := if i > 0 then "," else "";
    var r := EncodeEntries(vr, es, i + 1);
    assert EncodeEntries(vr, es, i) == Then(Then(Lit(sep), e), r);
    if e.err.Some? {
      assert Then(Then(Lit(sep), e), r) == Encoded(sep + e.text, e.err);
      Assoc3(out, sep, e.text);
    } else {
      assert Then(Then(Lit(sep), e), r) == Encoded(sep + e.text + r.text, r.err);
      Assoc4(out, sep, e.text, r.text);
    }
  }

  /** One exported field of the struct loop. */
  lemma FieldStep(vr: Variant, fs: seq<Field>, i: nat, first: bool, out: string)
    requires i < |fs| && fs[i].exported
    ensures var head := (if first then "" else ",") + "\"" + fs[i].name + "\":";
            var e := Encoding.Encode(vr, fs[i].value);
            var out' := out + head + e.text;
            Then(Then(Lit(out), EncodeFields(vr, fs, i, first)), Lit("}"))
            == if e.err.Some? then Encoded(out', e.err) else Then(Then(Lit(out'), EncodeFields(vr, fs, i + 1, false)), Lit("}"))
  {
    var head := (if first then "" else ",") + "\"" + fs[i].name + "\":";
    var e := Encoding.Encode(vr, fs[i].value);
    var r := EncodeFields(vr, fs, i + 1, false);
    assert EncodeFields(vr, fs, i, first) == Then(Then(Lit(head), e), r);
    if e.err.Some? {
      assert Then(Then(Lit(head), e), r) == Encoded(head + e.text, e.err);
      Assoc3(out, head, e.text);
    } else {
      assert Then(Then(Lit(head), e), r) == Encoded(head + e.text + r.text, r.err);
      Assoc4(out, head, e.text, r.text);
    }
  }

  /** `Marshal(arg)`: a fresh package encoder, its buffer's text and the error. */
  method Marshal(arg: Value) returns (s: string, err: Option<Error>)
    ensures s == Encoding.Marshal(arg).text
    ensures err == Encoding.Marshal(arg).err
  {
    var codec := new Encoder(Pkg);
    err := codec.JSONEncode(arg);
    s := codec.buf;
  }

  /** `Decoder`: the scanner is the token sequence `tokens` and the position `pos` of the next unread token. */
  class Decoder {
    const variant: Variant
    const tokens: seq<string>
    var pos: nat

    predicate Valid()
      reads this
    {
      pos <= |tokens|
    }

    constructor (variant: Variant, tokens: seq<string>)
      ensures Valid() && this.variant == variant && this.tokens == tokens && pos == 0
    {
      this.variant := variant;
      this.tokens := tokens;
      pos := 0;
    }

    /** `Read()`: the next token, or "decode failed" at the end of the stream. */
    method Read() returns (str: string, err: Option<Error>)
      requires Valid()
      modifies this
      ensures Valid() && pos == Next(tokens, old(pos))
      ensures err.None? <==> old(pos) < |tokens|
      ensures err.None? ==> str == tokens[old(pos)]
      ensures err.Some? ==> err.value == DecodeFailed
    {
      if pos == |tokens| {
        return "", Some(DecodeFailed);
      }
      str := tokens[pos];
      pos := pos + 1;
      err := None;
    }

    /** `consume(s)`: read a token and fail unless it is s. */
    method Consume(s: string) returns (err: Option<Error>)
      requires Valid()
      modifies this
      ensures Valid() && pos == Next(tokens, old(pos))
      ensures err == Decoding.Consume(tokens, old(pos), s)
    {
      var str;
      str, err := Read();
      if err.None? && str != s {
        err := Some(DecodeFailed);
      }
    }

    /** `JSONDecode(data)`: refuse anything but a non-nil pointer, then decode through it. */
    method JSONDecode(arg: Value) returns (v: Value, err: Option<Error>)
      requires Valid()
      modifies this
      ensures Valid() && Decoded(v, pos, err) == Decoding.JSONDecode(variant, tokens, old(pos), arg)
    {
      if !arg.Ptr? || arg.target.None? {
        return arg, Some(InvalidPointer);
      }
      v, err := Decode(arg, false);
    }

    /** `decode(data)`: t is what data holds, and v what it holds afterwards. */
    method Decode(t: Value, addr: bool) returns (v: Value, err: Option<Error>)
      requires Valid()
      modifies this
      ensures Valid() && Decoded(v, pos, err) == Decoding.Decode(variant, tokens, old(pos), t, addr)
      decreases |tokens| - pos, 2, t
    {
      match t
      case Int(_) => v, err := DecodeScalar(t, addr);
      case Uint(_) => v, err := DecodeScalar(t, addr);
      case Bool(_) => v, err := DecodeScalar(t, addr);
      case Str(_) => v, err := DecodeScalar(t, addr);
      case Array(_) => v, err := DecodeArray(t, addr);
      case Slice(_, _, _) => v, err := DecodeSlice(t);
      case Map(_, _, _, _) => v, err := DecodeMap(t);
      case Struct(_) => v, err := DecodeStruct(t, addr);
      case Ptr(p) =>
        if p.None? {
          return t, Some(Panic(ZeroValue));
        }
        var x;
        x, err := Decode(p.value, true);
        v := Ptr(Some(x));
      case Iface(d) =>
        if d.None? {
          return t, Some(Panic(ZeroValue));
        }
        var x;
        x, err := Decode(d.value, false);
        v := Iface(Some(x));
      case Unsupported(kind, _) =>
        return t, Some(UnsupportedType(kind));
    }

    /** The int, uint, bool and string cases. */
    method DecodeScalar(t: Value, addr: bool) returns (v: Value, err: Option<Error>)
      requires Valid() && (t.Int? || t.Uint? || t.Bool? || t.Str?)
      modifies this
      ensures Valid() && Decoded(v, pos, err) == Decoding.DecodeScalar(tokens, old(pos), t, addr)
    {
      var str;
      str, err := Read();
      if err.Some? || str == "null" {
        return t, err;
      }
      if t.Str? {
        if |str| < 2 {
          return t, Some(Panic(SliceOutOfRange));
        }
        if !addr {
          return t, Some(Panic(Unaddressable("SetString")));
        }
        return Str(str[1..|str| - 1]), None;
      }
      if |str| == 0 {
        return t, Some(Panic(IndexOutOfRange));
      }
      if str[0] == '"' {
        if |str| < 2 {
          return t, Some(Panic(SliceOutOfRange));
        }
        str := str[1..|str| - 1];
      }
      if t.Bool? {
        var b := ParseBool(str);
        if b.Failure? {
          return t, Some(b.error);
        }
        if !addr {
          return t, Some(Panic(Unaddressable("SetBool")));
        }
        return Bool(b.value), None;
      }
      var i := Atoi(str);
      if i.Failure? {
        return t, Some(i.error);
      }
      if t.Int? {
        if !addr {
          return t, Some(Panic(Unaddressable("SetInt")));
        }
        return Int(i.value), None;
      }
      if !addr {
        return t, Some(Panic(Unaddressable("SetUint")));
      }
      return Uint(ToUint64(i.value)), None;
    }

    /** The array case: `[`, exactly one element per index separated by `,`, then `]`. */
    method DecodeArray(t: Value, addr: bool) returns (v: Value, err: Option<Error>)
      requires Valid() && t.Array?
      modifies this
      ensures Valid() && Decoded(v, pos, err) == Decoding.DecodeArray(variant, tokens, old(pos), t, addr)
      decreases |tokens| - pos, 1
    {
      var str;
      str, err := Read();
      if err.Some? || str == "null" {
        return t, err;
      }
      if str != "[" {
        return t, Some(DecodeFailed);
      }
      ghost var final := ArrayLoop(variant, tokens, pos, t.elems, 0, addr);
      var es := t.elems;
      var i := 0;
      while i < |es|
        invariant Valid() && old(pos) < pos
        invariant i <= |es|
        invariant ArrayLoop(variant, tokens, pos, es, i, addr) == final
        decreases |es| - i
      {
        if i > 0 {
          err := Consume(",");
          if err.Some? {
            return Array(es), err;
          }
        }
        var x;
        x, err := Decode(es[i], addr);
        es := es[i := x];
        if err.Some? {
          return Array(es), err;
        }
        i := i + 1;
      }
      err := Consume("]");
      v := Array(es);
    }

    /** The slice case: `[`, then `for str != "]"` an element followed by `,` or `]`. */
    method DecodeSlice(t: Value) returns (v: Value, err: Option<Error>)
      requires Valid() && t.Slice?
      modifies this
      ensures Valid() && Decoded(v, pos, err) == Decoding.DecodeSlice(variant, tokens, old(pos), t)
      decreases |tokens| - pos, 1
    {
      var str;
      str, err := Read();
      if err.Some? || str == "null" {
        return t, err;
      }
      if str != "[" {
        return t, Some(DecodeFailed);
      }
      ghost var final := SliceLoop(variant, tokens, pos, t, 0);
      v := t;
      var cnt := 0;
      while str != "]"
        invariant Valid() && old(pos) < pos && v.Slice?
        invariant str != "]" ==> SliceLoop(variant, tokens, pos, v, cnt) == final
        invariant str == "]" ==> Decoded(v, pos, None) == final
        decreases |tokens| - pos
      {
        ghost var p0 := pos;
        var x;
        if variant == Root {
          if cnt >= |v.elems| {
            return v, Some(Panic(SliceIndex));
          }
          x, err := Decode(v.elems[cnt], true);
          v := v.(elems := v.elems[cnt := x]);
          if err.Some? {
            return v, err;
          }
        } else {
          x, err := Decode(Zero(v.elemType), true);
          if err.Some? {
            return v, err;
          }
          if cnt >= |v.elems| {
            return v, Some(Panic(SliceIndex));
          }
          v := v.(elems := v.elems[cnt := x]);
        }
        assert SliceNext(variant, tokens, pos, v, cnt) == final;
        ghost var p1 := pos;
        str, err := Read();
        assert err.None? && (str == "," || str == "]") ==> pos == p1 + 1 && tokens[p1] == str;
        if err.Some? {
          return v, err;
        }
        if str != "," && str != "]" {
          return v, Some(DecodeFailed);
        }
        cnt := cnt + 1;
      }
      err := None;
    }

    /** The map case: `{`, then `for str != "}"` a key, `:`, a value and one more token. */
    method DecodeMap(t: Value) returns (v: Value, err: Option<Error>)
      requires Valid() && t.Map?
      modifies this
      ensures Valid() && Decoded(v, pos, err) == Decoding.DecodeMap(variant, tokens, old(pos), t)
      decreases |tokens| - pos, 1
    {
      var str;
      str, err := Read();
      if err.Some? || str == "null" {
        return t, err;
      }
      if str != "{" {
        return t, Some(DecodeFailed);
      }
      ghost var final := MapLoop(variant, tokens, pos, t);
      v := t;
      while str != "}"
        invariant Valid() && old(pos) < pos && v.Map?
        invariant str != "}" ==> MapLoop(variant, tokens, pos, v) == final
        invariant str == "}" ==> Decoded(v, pos, None) == final
        decreases |tokens| - pos
      {
        v, err := DecodeEntry(v);
        if err.Some? {
          return v, err;
        }
        str, err := Read();
        if err.Some? {
          return v, err;
        }
      }
      err := None;
    }

    /**
     * One turn of the map loop before its last `Read`: a fresh key, `:`, then
     * the value, into `data.MapIndex(key)` (root copy) or a fresh value stored
     * with `SetMapIndex` (package copy).
     */
    method DecodeEntry(m: Value) returns (v: Value, err: Option<Error>)
      requires Valid() && m.Map?
      modifies this
      ensures Valid() && old(pos) <= pos && v.Map?
      ensures err.Some? ==> Decoded(v, pos, err) == MapLoop(variant, tokens, old(pos), m)
      ensures err.None? ==> old(pos) < pos && MapNext(variant, tokens, pos, v) == MapLoop(variant, tokens, old(pos), m)
      decreases |tokens| - pos, 3
    {
      v := m;
      var key;
      key, err := Decode(Zero(m.keyType), true);
      if err.Some? {
        return;
      }
      err := Consume(":");
      if err.Some? {
        return;
      }
      if variant == Root {
        var idx := if m.isNil then None else KeyIndex(m.entries, key);
        if idx.None? {
          return m, Some(Panic(ZeroValue));
        }
        var j := idx.value;
        var x;
        x, err := Decode(m.entries[j].1, false);
        v := m.(entries := m.entries[j := (m.entries[j].0, x)]);
      } else {
        var x;
        x, err := Decode(Zero(m.valType), true);
        if err.Some? {
          return;
        }
        if m.isNil {
          return m, Some(Panic(NilMap));
        }
        v := m.(entries := SetEntry(m.entries, key, x));
      }
    }

    /** The struct case: `{`, then `for str != "}"` a name, `:`, the field's value if it is known, and one more token. */
    method DecodeStruct(t: Value, addr: bool) returns (v: Value, err: Option<Error>)
      requires Valid() && t.Struct?
      modifies this
      ensures Valid() && Decoded(v, pos, err) == Decoding.DecodeStruct(variant, tokens, old(pos), t, addr)
      decreases |tokens| - pos, 1
    {
      var str;
      str, err := Read();
      if err.Some? || str == "null" {
        return t, err;
      }
      if str != "{" {
        return t, Some(DecodeFailed);
      }
      ghost var final := StructLoop(variant, tokens, pos, t.fields, addr);
      var fs := t.fields;
      while str != "}"
        invariant Valid() && old(pos) < pos
        invariant str != "}" ==> StructLoop(variant, tokens, pos, fs, addr) == final
        invariant str == "}" ==> Decoded(Struct(fs), pos, None) == final
        decreases |tokens| - pos
      {
        fs, err := DecodeMember(fs, addr);
        if err.Some? {
          return Struct(fs), err;
        }
        str, err := Read();
        if err.Some? {
          return Struct(fs), err;
        }
      }
      v := Struct(fs);
      err := None;
    }

    /**
     * One turn of the struct loop before its last `Read`: a name, whose first
     * and last characters are dropped, `:`, then the field's value if the
     * struct has an exported field of that name.
     */
    method DecodeMember(fs: seq<Field>, addr: bool) returns (fs': seq<Field>, err: Option<Error>)
      requires Valid()
      modifies this
      ensures Valid() && old(pos) <= pos
      ensures err.Some? ==> Decoded(Struct(fs'), pos, err) == StructLoop(variant, tokens, old(pos), fs, addr)
      ensures err.None? ==> old(pos) < pos && StructNext(variant, tokens, pos, fs', addr) == StructLoop(variant, tokens, old(pos), fs, addr)
      decreases |tokens| - pos, 3
    {
      fs' := fs;
      var name;
      name, err := Read();
      if err.Some? {
        return;
      }
      if |name| < 2 {
        return fs, Some(Panic(SliceOutOfRange));
      }
      name := name[1..|name| - 1];
      err := Consume(":");
      if err.Some? {
        return;
      }
      var j := FieldIndex(fs, name);
      if j.Some? && fs[j.value].exported {
        var x;
        x, err := Decode(fs[j.value].value, addr);
        fs' := fs[j.value := fs[j.value].(value := x)];
      }
    }
  }

  /** `UnMarshal(s, rec)` on the tokens of s: a fresh package decoder, and what `rec` points to afterwards. */
  method UnMarshal(toks: seq<string>, rec: Value) returns (v: Value, err: Option<Error>)
    ensures v == Decoding.UnMarshal(toks, rec).value
    ensures err == Decoding.UnMarshal(toks, rec).err
  {
    var codec := new Decoder(Pkg, toks);
    v, err := codec.JSONDecode(rec);
  }
}

/**
 * What `Decoder.decode` does, as a function of the token stream, the position
 * of the next unread token and the target: the updated target, the new
 * position and the error returned.  The target is updated in place in Go;
 * here the updated value is returned, with the flag `addr` saying whether
 * reflect would let decode store into it (see `Decode`).  A panic is the
 * error `Panic`; the target and position it reports are those at the moment
 * of the panic.
 */
module Decoding {
  import opened Wrappers
  import opened Errors
  import opened Strconv
  import opened GoValues
  import opened Encoding

  /** The target after decoding, the position of the next unread token, and the error decode returned. */
  datatype Decoded = Decoded(value: Value, pos: nat, err: Option<Error>)

  /** The errors decode can return: it never reports io.EOF, and only JSONDecode reports a bad pointer. */
  predicate DecodeError(e: Error)
  {
    e != EOF && e != InvalidPointer
  }

  /** The position after `Read` or `consume`: one token further, unless the stream has ended. */
  function Next(toks: seq<string>, pos: nat): (r: nat)
    requires pos <= |toks|
    ensures r <= |toks|
  {
    if pos < |toks| then pos + 1 else pos
  }

  /** `consume(s)`: the error, if the stream has ended or the next token is not s. */
  function Consume(toks: seq<string>, pos: nat, s: string): (r: Option<Error>)
    requires pos <= |toks|
    ensures r.None? <==> pos < |toks| && toks[pos] == s
    ensures r.Some? ==> r.value == DecodeFailed
  {
    if pos == |toks| || toks[pos] != s then Some(DecodeFailed) else None
  }

  /** `str[1 : len(str)-1]`, which panics on a token shorter than two characters. */
  function Inner(str: string): (r: Result<string, Error>)
    ensures r.Success? <==> |str| >= 2
    ensures r.Success? ==> str == [str[0]] + r.value + [str[|str| - 1]]
    ensures r.Failure? ==> r.error == Panic(SliceOutOfRange)
  {
    if |str| < 2 then Failure(Panic(SliceOutOfRange))
    else
      assert str == [str[0]] + str[1..|str| - 1] + [str[|str| - 1]];
      Success(str[1..|str| - 1])
  }

  /** The text a scalar is parsed from: a token that starts with a quote loses its first and last characters. */
  function Unquote(str: string): (r: Result<string, Error>)
    ensures r.Failure? <==> |str| == 0 || (str[0] == '"' && |str| < 2)
    ensures r.Failure? ==> r.error.Panic?
    ensures r.Success? && str[0] == '"' ==> str == [str[0]] + r.value + [str[|str| - 1]]
    ensures r.Success? && str[0] != '"' ==> r.value == str
  {
    if |str| == 0 then Failure(Panic(IndexOutOfRange))
    else if str[0] == '"' then Inner(str)
    else Success(str)
  }

  /** `uint64(i)`: an int64 reinterpreted as unsigned, wrapping negative values. */
  function ToUint64(i: int): (n: nat)
    ensures n <= MaxUint64
    ensures 0 <= i <= MaxUint64 ==> n == i
  {
    i % (MaxUint64 + 1)
  }

  /** Parse a token into the scalar target t and store the result, which needs an addressable target. */
  function SetScalar(t: Value, str: string, addr: bool): (r: Result<Value, Error>)
    requires t.Int? || t.Uint? || t.Bool? || t.Str?
    ensures r.Success? ==> r.value.Int? == t.Int? && r.value.Uint? == t.Uint? && r.value.Bool? == t.Bool?
    ensures r.Success? ==> addr
    ensures r.Failure? ==> DecodeError(r.error)
  {
    match t
    case Int(_) =>
      (match Unquote(str)
       case Failure(e) => Failure(e)
       case Success(u) =>
         match Atoi(u)
         case Failure(e) => Failure(e)
         case Success(i) => Store("SetInt", addr, Int(i)))
    case Uint(_) =>
      (match Unquote(str)
       case Failure(e) => Failure(e)
       case Success(u) =>
         match Atoi(u)
         case Failure(e) => Failure(e)
         case Success(i) => Store("SetUint", addr, Uint(ToUint64(i))))
    case Bool(_) =>
      (match Unquote(str)
       case Failure(e) => Failure(e)
       case Success(u) =>
         match ParseBool(u)
         case Failure(e) => Failure(e)
         case Success(b) => Store("SetBool", addr, Bool(b)))
    case Str(_) =>
      match Inner(str)
      case Failure(e) => Failure(e)
      case Success(u) => Store("SetString", addr, Str(u))
  }

  /** A reflect setter: it panics unless the value it stores into is addressable. */
  function Store(setter: string, addr: bool, v: Value): (r: Result<Value, Error>)
    ensures r.Success? <==> addr
    ensures r.Success? ==> r.value == v
    ensures r.Failure? ==> r.error == Panic(Unaddressable(setter))
  {
    if addr then Success(v) else Failure(Panic(Unaddressable(setter)))
  }

  /**
   * The target after decode, told apart only by what decode may change: a
   * scalar keeps its kind, a slice its element type, nil-ness and length, a
   * map its types and nil-ness (the package copy may add keys, the root copy
   * never does), a struct its field names, a pointer or interface whether it
   * is nil, an array its length.
   */
  predicate SameHeader(vr: Variant, t: Value, v: Value)
  {
    match t
    case Int(_) => v.Int?
    case Uint(_) => v.Uint?
    case Bool(_) => v.Bool?
    case Str(_) => v.Str?
    case Slice(et, isNil, es) => v.Slice? && v.elemType == et && v.isNil == isNil && |v.elems| == |es|
    case Array(es) => v.Array? && |v.elems| == |es|
    case Map(kt, vt, isNil, es) =>
      v.Map? && v.keyType == kt && v.valType == vt && v.isNil == isNil &&
      (if vr == Root then Keys(v.entries) == Keys(es) else forall k :: k in Keys(es) ==> k in Keys(v.entries))
    case Ptr(p) => v.Ptr? && v.target.Some? == p.Some?
    case Iface(d) => v.Iface? && v.dynamic.Some? == d.Some?
    case Struct(fs) => v.Struct? && SameNames(fs, v.fields)
    case Unsupported(_, _) => v == t
  }

  /** Two field lists with the same names and export flags, in the same order. */
  predicate SameNames(fs: seq<Field>, gs: seq<Field>)
  {
    |fs| == |gs| && forall k :: 0 <= k < |fs| ==> fs[k].name == gs[k].name && fs[k].exported == gs[k].exported
  }

  /**
   * `decode(data)` with `data` holding t.  `addr` is whether data is
   * addressable, which the setters need: the target of a pointer, a slice
   * element and a fresh `reflect.New(t).Elem()` are; an interface's dynamic
   * value and a map value are not; array elements and struct fields are when
   * their container is.  Every successful decode reads at least one token.
   */
  function Decode(vr: Variant, toks: seq<string>, pos: nat, t: Value, addr: bool): (r: Decoded)
    requires pos <= |toks|
    ensures pos <= r.pos <= |toks|
    ensures r.err.None? ==> pos < r.pos
    ensures r.err.Some? ==> DecodeError(r.err.value)
    ensures SameHeader(vr, t, r.value)
    decreases |toks| - pos, 2, t
  {
    match t
    case Int(_) => DecodeScalar(toks, pos, t, addr)
    case Uint(_) => DecodeScalar(toks, pos, t, addr)
    case Bool(_) => DecodeScalar(toks, pos, t, addr)
    case Str(_) => DecodeScalar(toks, pos, t, addr)
    case Array(_) => DecodeArray(vr, toks, pos, t, addr)
    case Slice(_, _, _) => DecodeSlice(vr, toks, pos, t)
    case Map(_, _, _, _) => DecodeMap(vr, toks, pos, t)
    case Struct(_) => DecodeStruct(vr, toks, pos, t, addr)
    case Ptr(p) =>
      if p.None? then Decoded(t, pos, Some(Panic(ZeroValue)))
      else
        var d := Decode(vr, toks, pos, p.value, true);
        Decoded(Ptr(Some(d.value)), d.pos, d.err)
    case Iface(x) =>
      if x.None? then Decoded(t, pos, Some(Panic(ZeroValue)))
      else
        var d := Decode(vr, toks, pos, x.value, false);
        Decoded(Iface(Some(d.value)), d.pos, d.err)
    case Unsupported(kind, _) => Decoded(t, pos, Some(UnsupportedType(kind)))
  }

  /** The int, uint, bool and string cases: one token, `null` or the scalar's text. */
  function DecodeScalar(toks: seq<string>, pos: nat, t: Value, addr: bool): (r: Decoded)
    requires pos <= |toks|
    requires t.Int? || t.Uint? || t.Bool? || t.Str?
    ensures r.pos == Next(toks, pos)
    ensures r.err.None? ==> pos < r.pos
    ensures r.err.Some? ==> DecodeError(r.err.value)
    ensures SameHeader(Pkg, t, r.value) && SameHeader(Root, t, r.value)
  {
    if pos == |toks| then Decoded(t, pos, Some(DecodeFailed))
    else if toks[pos] == "null" then Decoded(t, pos + 1, None)
    else
      match SetScalar(t, toks[pos], addr)
      case Success(v) => Decoded(v, pos + 1, None)
      case Failure(e) => Decoded(t, pos + 1, Some(e))
  }

  /** The array case: `null`, or `[`, then the elements. */
  function DecodeArray(vr: Variant, toks: seq<string>, pos: nat, t: Value, addr: bool): (r: Decoded)
    requires pos <= |toks| && t.Array?
    ensures pos <= r.pos <= |toks|
    ensures r.err.None? ==> pos < r.pos
    ensures r.err.Some? ==> DecodeError(r.err.value)
    ensures r.value.Array? && |r.value.elems| == |t.elems|
    decreases |toks| - pos, 1
  {
    if pos == |toks| then Decoded(t, pos, Some(DecodeFailed))
    else if toks[pos] == "null" then Decoded(t, pos + 1, None)
    else if toks[pos] != "[" then Decoded(t, pos + 1, Some(DecodeFailed))
    else ArrayLoop(vr, toks, pos + 1, t.elems, 0, addr)
  }

  /** The array loop from element i: exactly one element per index, `,` between them, then `]`. */
  function ArrayLoop(vr: Variant, toks: seq<string>, pos: nat, es: seq<Value>, i: nat, addr: bool): (r: Decoded)
    requires pos <= |toks| && i <= |es|
    ensures pos <= r.pos <= |toks|
    ensures r.err.None? ==> pos < r.pos
    ensures r.err.Some? ==> DecodeError(r.err.value)
    ensures r.value.Array? && |r.value.elems| == |es|
    decreases |toks| - pos, 3
  {
    if i == |es| then Decoded(Array(es), Next(toks, pos), Consume(toks, pos, "]"))
    else if i > 0 && Consume(toks, pos, ",").Some? then Decoded(Array(es), Next(toks, pos), Consume(toks, pos, ","))
    else
      var p := if i > 0 then pos + 1 else pos;
      var d := Decode(vr, toks, p, es[i], addr);
      if d.err.Some? then Decoded(Array(es[i := d.value]), d.pos, d.err)
      else ArrayLoop(vr, toks, d.pos, es[i := d.value], i + 1, addr)
  }

  /** The slice case: `null`, or `[`, then the elements. */
  function DecodeSlice(vr: Variant, toks: seq<string>, pos: nat, t: Value): (r: Decoded)
    requires pos <= |toks| && t.Slice?
    ensures pos <= r.pos <= |toks|
    ensures r.err.None? ==> pos < r.pos
    ensures r.err.Some? ==> DecodeError(r.err.value)
    ensures SameHeader(vr, t, r.value)
    decreases |toks| - pos, 1
  {
    if pos == |toks| then Decoded(t, pos, Some(DecodeFailed))
    else if toks[pos] == "null" then Decoded(t, pos + 1, None)
    else if toks[pos] != "[" then Decoded(t, pos + 1, Some(DecodeFailed))
    else SliceLoop(vr, toks, pos + 1, t, 0)
  }

  /**
   * One turn of the `for str != "]"` loop, for element cnt.  The root copy
   * decodes into the existing element `data.Index(cnt)`; the package copy
   * decodes a fresh element and then stores it there.  Either way index cnt
   * must exist: the slice never grows.
   */
  function SliceLoop(vr: Variant, toks: seq<string>, pos: nat, s: Value, cnt: nat): (r: Decoded)
    requires pos <= |toks| && s.Slice?
    ensures pos <= r.pos <= |toks|
    ensures r.err.None? ==> pos < r.pos
    ensures r.err.Some? ==> DecodeError(r.err.value)
    ensures SameHeader(vr, s, r.value)
    decreases |toks| - pos, 3
  {
    match vr
    case Root =>
      if cnt >= |s.elems| then Decoded(s, pos, Some(Panic(SliceIndex)))
      else
        var d := Decode(Root, toks, pos, s.elems[cnt], true);
        var s' := s.(elems := s.elems[cnt := d.value]);
        if d.err.Some? then Decoded(s', d.pos, d.err) else SliceNext(vr, toks, d.pos, s', cnt)
    case Pkg =>
      var d := Decode(Pkg, toks, pos, Zero(s.elemType), true);
      if d.err.Some? then Decoded(s, d.pos, d.err)
      else if cnt >= |s.elems| then Decoded(s, d.pos, Some(Panic(SliceIndex)))
      else SliceNext(vr, toks, d.pos, s.(elems := s.elems[cnt := d.value]), cnt)
  }

  /** After element cnt: the next token must be `,` (another element follows) or `]` (the end). */
  function SliceNext(vr: Variant, toks: seq<string>, pos: nat, s: Value, cnt: nat): (r: Decoded)
    requires pos <= |toks| && s.Slice?
    ensures pos <= r.pos <= |toks|
    ensures r.err.None? ==> pos < r.pos
    ensures r.err.Some? ==> DecodeError(r.err.value)
    ensures SameHeader(vr, s, r.value)
    decreases |toks| - pos, 3
  {
    if pos == |toks| then Decoded(s, pos, Some(DecodeFailed))
    else if toks[pos] != "," && toks[pos] != "]" then Decoded(s, pos + 1, Some(DecodeFailed))
    else if toks[pos] == "]" then Decoded(s, pos + 1, None)
    else SliceLoop(vr, toks, pos + 1, s, cnt + 1)
  }

  /** The map case: `null`, or `{`, then the entries. */
  function DecodeMap(vr: Variant, toks: seq<string>, pos: nat, t: Value): (r: Decoded)
    requires pos <= |toks| && t.Map?
    ensures pos <= r.pos <= |toks|
    ensures r.err.None? ==> pos < r.pos
    ensures r.err.Some? ==> DecodeError(r.err.value)
    ensures SameHeader(vr, t, r.value)
    decreases |toks| - pos, 1
  {
    if pos == |toks| then Decoded(t, pos, Some(DecodeFailed))
    else if toks[pos] == "null" then Decoded(t, pos + 1, None)
    else if toks[pos] != "{" then Decoded(t, pos + 1, Some(DecodeFailed))
    else MapLoop(vr, toks, pos + 1, t)
  }

  /**
   * One turn of the `for str != "}"` loop: a fresh key, then `:`, then the
   * value.
   */
  function MapLoop(vr: Variant, toks: seq<string>, pos: nat, m: Value): (r: Decoded)
    requires pos <= |toks| && m.Map?
    ensures pos <= r.pos <= |toks|
    ensures r.err.None? ==> pos < r.pos
    ensures r.err.Some? ==> DecodeError(r.err.value)
    ensures SameHeader(vr, m, r.value)
    decreases |toks| - pos, 3
  {
    var dk := Decode(vr, toks, pos, Zero(m.keyType), true);
    if dk.err.Some? then Decoded(m, dk.pos, dk.err)
    else if Consume(toks, dk.pos, ":").Some? then Decoded(m, Next(toks, dk.pos), Consume(toks, dk.pos, ":"))
    else MapValue(vr, toks, dk.pos + 1, m, dk.value)
  }

  /**
   * The value of the entry with the given key.  The root copy decodes it
   * into `data.MapIndex(key)`, which is no value at all when the key is
   * absent; the package copy decodes a fresh value and stores the pair with
   * `SetMapIndex`.
   */
  function MapValue(vr: Variant, toks: seq<string>, p: nat, m: Value, key: Value): (r: Decoded)
    requires p <= |toks| && m.Map?
    ensures p <= r.pos <= |toks|
    ensures r.err.Some? ==> DecodeError(r.err.value)
    ensures SameHeader(vr, m, r.value)
    decreases |toks| - p, 3
  {
    match vr
    case Root =>
      var idx := if m.isNil then None else KeyIndex(m.entries, key);
      if idx.None? then Decoded(m, p, Some(Panic(ZeroValue)))
      else
        var j := idx.value;
        var dv := Decode(Root, toks, p, m.entries[j].1, false);
        var m' := m.(entries := m.entries[j := (m.entries[j].0, dv.value)]);
        assert Keys(m'.entries) == Keys(m.entries);
        if dv.err.Some? then Decoded(m', dv.pos, dv.err) else MapNext(vr, toks, dv.pos, m')
    case Pkg =>
      var dv := Decode(Pkg, toks, p, Zero(m.valType), true);
      if dv.err.Some? then Decoded(m, dv.pos, dv.err)
      else if m.isNil then Decoded(m, dv.pos, Some(Panic(NilMap)))
      else MapNext(vr, toks, dv.pos, m.(entries := SetEntry(m.entries, key, dv.value)))
  }

  /** After an entry: `}` ends the map; any other token, `,` or not, starts the next entry. */
  function MapNext(vr: Variant, toks: seq<string>, pos: nat, m: Value): (r: Decoded)
    requires pos <= |toks| && m.Map?
    ensures pos <= r.pos <= |toks|
    ensures r.err.None? ==> pos < r.pos
    ensures r.err.Some? ==> DecodeError(r.err.value)
    ensures SameHeader(vr, m, r.value)
    decreases |toks| - pos, 3
  {
    if pos == |toks| then Decoded(m, pos, Some(DecodeFailed))
    else if toks[pos] == "}" then Decoded(m, pos + 1, None)
    else MapLoop(vr, toks, pos + 1, m)
  }

  /** The struct case: `null`, or `{`, then the members. */
  function DecodeStruct(vr: Variant, toks: seq<string>, pos: nat, t: Value, addr: bool): (r: Decoded)
    requires pos <= |toks| && t.Struct?
    ensures pos <= r.pos <= |toks|
    ensures r.err.None? ==> pos < r.pos
    ensures r.err.Some? ==> DecodeError(r.err.value)
    ensures r.value.Struct? && SameNames(t.fields, r.value.fields)
    decreases |toks| - pos, 1
  {
    if pos == |toks| then Decoded(t, pos, Some(DecodeFailed))
    else if toks[pos] == "null" then Decoded(t, pos + 1, None)
    else if toks[pos] != "{" then Decoded(t, pos + 1, Some(DecodeFailed))
    else StructLoop(vr, toks, pos + 1, t.fields, addr)
  }

  /**
   * One turn of the struct loop: a name token, whose first and last
   * characters are dropped, then `:`.  A known exported field is decoded in
   * place; for an unknown name, or an unexported field (which decode refuses
   * to touch), nothing more is read, so the member's value is left unread.
   */
  function StructLoop(vr: Variant, toks: seq<string>, pos: nat, fs: seq<Field>, addr: bool): (r: Decoded)
    requires pos <= |toks|
    ensures pos <= r.pos <= |toks|
    ensures r.err.None? ==> pos < r.pos
    ensures r.err.Some? ==> DecodeError(r.err.value)
    ensures r.value.Struct? && SameNames(fs, r.value.fields)
    decreases |toks| - pos, 3
  {
    if pos == |toks| then Decoded(Struct(fs), pos, Some(DecodeFailed))
    else
      match Inner(toks[pos])
      case Failure(e) => Decoded(Struct(fs), pos + 1, Some(e))
      case Success(name) =>
        if Consume(toks, pos + 1, ":").Some? then Decoded(Struct(fs), Next(toks, pos + 1), Consume(toks, pos + 1, ":"))
        else
          var p := pos + 2;
          var j := FieldIndex(fs, name);
          if j.Some? && fs[j.value].exported then
            var d := Decode(vr, toks, p, fs[j.value].value, addr);
            var fs' := fs[j.value := fs[j.value].(value := d.value)];
            assert SameNames(fs, fs');
            if d.err.Some? then Decoded(Struct(fs'), d.pos, d.err) else StructNext(vr, toks, d.pos, fs', addr)
          else StructNext(vr, toks, p, fs, addr)
  }

  /** After a member: `}` ends the struct; any other token starts the next member. */
  function StructNext(vr: Variant, toks: seq<string>, pos: nat, fs: seq<Field>, addr: bool): (r: Decoded)
    requires pos <= |toks|
    ensures pos <= r.pos <= |toks|
    ensures r.err.None? ==> pos < r.pos
    ensures r.err.Some? ==> DecodeError(r.err.value)
    ensures r.value.Struct? && SameNames(fs, r.value.fields)
    decreases |toks| - pos, 3
  {
    if pos == |toks| then Decoded(Struct(fs), pos, Some(DecodeFailed))
    else if toks[pos] == "}" then Decoded(Struct(fs), pos + 1, None)
    else StructLoop(vr, toks, pos + 1, fs, addr)
  }

  /**
   * `JSONDecode(data)`: `arg` is the dynamic value of `data` (`Iface(None)`
   * standing for a nil interface).  Anything but a non-nil pointer is
   * refused before a token is read.
   */
  function JSONDecode(vr: Variant, toks: seq<string>, pos: nat, arg: Value): (r: Decoded)
    requires pos <= |toks|
    ensures !(arg.Ptr? && arg.target.Some?) ==> r == Decoded(arg, pos, Some(InvalidPointer))
    ensures arg.Ptr? && arg.target.Some? ==> r == Decode(vr, toks, pos, arg, false)
    ensures r.err == Some(InvalidPointer) <==> !(arg.Ptr? && arg.target.Some?)
    ensures r.err.Some? ==> r.err.value != EOF
  {
    if !arg.Ptr? || arg.target.None? then Decoded(arg, pos, Some(InvalidPointer))
    else Decode(vr, toks, pos, arg, false)
  }

  /** `UnMarshal(s, rec)`, on the tokens of s. */
  function UnMarshal(toks: seq<string>, rec: Value): Decoded
  {
    JSONDecode(Pkg, toks, 0, rec)
  }

  // ---------------------------------------------------------------------------
  // Properties

  /** At the end of the stream every kind that reads a token fails with "decode failed", the target untouched. */
  lemma AtEndOfStream(vr: Variant, toks: seq<string>, t: Value, addr: bool)
    requires !t.Ptr? && !t.Iface? && !t.Unsupported?
    ensures Decode(vr, toks, |toks|, t, addr) == Decoded(t, |toks|, Some(DecodeFailed))
  {
  }

  /** No decode at all succeeds at the end of the stream. */
  lemma NothingAtEndOfStream(vr: Variant, toks: seq<string>, t: Value, addr: bool)
    ensures Decode(vr, toks, |toks|, t, addr).err.Some?
  {
  }

  /** The targets a null token leaves alone: any kind decode reads, behind any chain of non-nil pointers and interfaces. */
  predicate NullReceiver(t: Value)
  {
    match t
    case Ptr(p) => p.Some? && NullReceiver(p.value)
    case Iface(d) => d.Some? && NullReceiver(d.value)
    case Unsupported(_, _) => false
    case _ => true
  }

  /** A null token consumes one token and leaves the target exactly as it was. */
  lemma {:induction false} NullLeavesTarget(vr: Variant, toks: seq<string>, pos: nat, t: Value, addr: bool)
    requires pos < |toks| && toks[pos] == "null" && NullReceiver(t)
    ensures Decode(vr, toks, pos, t, addr) == Decoded(t, pos + 1, None)
  {
    match t
    case Ptr(p) => NullLeavesTarget(vr, toks, pos, p.value, true);
    case Iface(d) => NullLeavesTarget(vr, toks, pos, d.value, false);
    case _ =>
  }

  /** A quoted number or boolean parses as its unquoted text. */
  lemma QuotedScalar(t: Value, u: string, addr: bool)
    requires t.Int? || t.Uint? || t.Bool?
    requires u != "" && u[0] != '"'
    ensures SetScalar(t, "\"" + u + "\"", addr) == SetScalar(t, u, addr)
  {
    var q := "\"" + u + "\"";
    assert q[1..|q| - 1] == u;
  }

  /** A string token loses its first and last characters, whatever they are. */
  lemma StringToken(u: string, c: char, d: char)
    ensures SetScalar(Str(""), [c] + u + [d], true) == Success(Str(u))
  {
    var q := [c] + u + [d];
    assert q[1..|q| - 1] == u;
  }

  /** A decoded uint is the int64 Atoi read, taken modulo 2^64: a quoted "-1" becomes the largest uint64. */
  lemma NegativeUintWraps()
    ensures SetScalar(Uint(0), "\"-1\"", true) == Success(Uint(MaxUint64))
  {
    assert IntToDecimal(-1) == "-1";
    AtoiOfDecimal(-1);
    assert "\"-1\""[1..3] == "-1";
  }

  /** A uint above the int64 maximum is written by encode but refused by decode, which parses it with Atoi. */
  lemma LargeUintRefused(n: nat, addr: bool)
    requires MaxInt64 < n <= MaxUint64
    ensures SetScalar(Uint(0), NatToDecimal(n), addr) == Failure(NumRange("Atoi", NatToDecimal(n)))
  {
    AtoiRejectsLargeUint(n);
    assert IsDigit(NatToDecimal(n)[0]);
  }

  /** An int64's decimal text decodes, bare, into an addressable int. */
  lemma IntToken(vr: Variant, toks: seq<string>, pos: nat, i: int, j: int)
    requires pos < |toks| && toks[pos] == IntToDecimal(i) && MinInt64 <= i <= MaxInt64
    ensures Decode(vr, toks, pos, Int(j), true) == Decoded(Int(i), pos + 1, None)
  {
    AtoiOfDecimal(i);
    assert toks[pos][0] == '-' || IsDigit(toks[pos][0]);
  }

  /** An int64's decimal text between quotes decodes into an addressable int as well. */
  lemma QuotedIntToken(vr: Variant, toks: seq<string>, pos: nat, i: int, j: int)
    requires pos < |toks| && toks[pos] == "\"" + IntToDecimal(i) + "\"" && MinInt64 <= i <= MaxInt64
    ensures Decode(vr, toks, pos, Int(j), true) == Decoded(Int(i), pos + 1, None)
  {
    AtoiOfDecimal(i);
    var d := IntToDecimal(i);
    assert d[0] == '-' || IsDigit(d[0]);
    QuotedScalar(Int(j), d, true);
  }

  /** A quoted string token decodes into an addressable string as its characters. */
  lemma StrToken(vr: Variant, toks: seq<string>, pos: nat, u: string, w: string)
    requires pos < |toks| && toks[pos] == "\"" + u + "\""
    ensures Decode(vr, toks, pos, Str(w), true) == Decoded(Str(u), pos + 1, None)
  {
    var q := toks[pos];
    assert q[1..|q| - 1] == u;
    assert q[0] == '"';
  }

  /** A value that is not addressable cannot be set: a non-null scalar in an interface panics. */
  lemma InterfaceScalarPanics(vr: Variant)
    ensures Decode(vr, ["1"], 0, Iface(Some(Int(0))), true) == Decoded(Iface(Some(Int(0))), 1, Some(Panic(Unaddressable("SetInt"))))
  {
  }

  /** A pointer target is decoded through: `new(int)` and `new(string)` of the package tests. */
  lemma UnMarshalScalarExamples()
    ensures UnMarshal(["1"], Ptr(Some(Int(0)))) == Decoded(Ptr(Some(Int(1))), 1, None)
    ensures UnMarshal(["\"ada\""], Ptr(Some(Str("")))) == Decoded(Ptr(Some(Str("ada"))), 1, None)
  {
    IntToken(Pkg, ["1"], 0, 1, 0);
    StrToken(Pkg, ["\"ada\""], 0, "ada", "");
  }

  /** `{"Mp":null}` leaves the nil map in place. */
  lemma UnMarshalNullMapExample()
    ensures UnMarshal(["{", "\"Mp\"", ":", "null", "}"], Ptr(Some(Struct([Field("Mp", true, Map(TInt, TInt, true, []))]))))
         == Decoded(Ptr(Some(Struct([Field("Mp", true, Map(TInt, TInt, true, []))]))), 5, None)
  {
    var toks := ["{", "\"Mp\"", ":", "null", "}"];
    var fs := [Field("Mp", true, Map(TInt, TInt, true, []))];
    assert Inner(toks[1]) == Success("Mp") by { assert toks[1][1..3] == "Mp"; }
    NullLeavesTarget(Pkg, toks, 3, Map(TInt, TInt, true, []), true);
    assert StructLoop(Pkg, toks, 1, fs, true) == Decoded(Struct(fs), 5, None);
  }

  /** The root copy adds no key: decoding `{"1":"2"}` into an empty map panics on the missing key. */
  lemma RootMapNeedsKeys()
    ensures Decode(Root, ["{", "\"1\"", ":", "\"2\"", "}"], 0, Map(TInt, TInt, false, []), true)
         == Decoded(Map(TInt, TInt, false, []), 3, Some(Panic(ZeroValue)))
  {
    var toks := ["{", "\"1\"", ":", "\"2\"", "}"];
    var m := Map(TInt, TInt, false, []);
    assert IntToDecimal(1) == "1";
    QuotedIntToken(Root, toks, 1, 1, 0);
    MapKeyStep(Root, toks, 1, m, Int(1), 2);
    RootMapMissingKey(toks, 3, m, Int(1));
  }

  /**
   * Both copies decode `[1,2]` into a slice of length 1 as far as the
   * second element; the root copy panics before reading it, the package copy
   * after.
   */
  lemma SliceOverflowExample()
    ensures Decode(Root, ["[", "1", ",", "2", "]"], 0, Slice(TInt, false, [Int(0)]), true)
         == Decoded(Slice(TInt, false, [Int(1)]), 3, Some(Panic(SliceIndex)))
    ensures Decode(Pkg, ["[", "1", ",", "2", "]"], 0, Slice(TInt, false, [Int(0)]), true)
         == Decoded(Slice(TInt, false, [Int(1)]), 4, Some(Panic(SliceIndex)))
  {
  }

  /** An array reads exactly as many elements as it has, then insists on `]`. */
  lemma ArrayLengthExample(vr: Variant)
    ensures Decode(vr, ["[", "1", ",", "2", "]"], 0, Array([Int(0)]), true)
         == Decoded(Array([Int(1)]), 3, Some(DecodeFailed))
  {
  }

  /**
   * The value of an unknown member is not read: its first token is taken
   * for the separator and the `,` after it for the next name, which is too
   * short to lose its quotes.
   */
  lemma UnknownFieldExample(vr: Variant)
    ensures Decode(vr, ["{", "\"X\"", ":", "1", ",", "\"A\"", ":", "2", "}"], 0, Struct([Field("A", true, Int(0))]), true)
         == Decoded(Struct([Field("A", true, Int(0))]), 5, Some(Panic(SliceOutOfRange)))
  {
    var toks := ["{", "\"X\"", ":", "1", ",", "\"A\"", ":", "2", "}"];
    var fs := [Field("A", true, Int(0))];
    assert Inner(toks[1]) == Success("X") by { assert toks[1][1..2] == "X"; }
    assert FieldIndex(fs, "X") == None;
    assert StructLoop(vr, toks, 4, fs, true) == Decoded(Struct(fs), 5, Some(Panic(SliceOutOfRange)));
    assert StructLoop(vr, toks, 1, fs, true) == Decoded(Struct(fs), 5, Some(Panic(SliceOutOfRange)));
  }

  // ---------------------------------------------------------------------------
  // One turn of each decode loop, and how each loop ends

  /** A slice element that decodes without error lands at index cnt, and the loop goes on to the separator check. */
  lemma SliceStep(vr: Variant, toks: seq<string>, p: nat, s: Value, cnt: nat, x: Value, q: nat)
    requires p <= |toks| && s.Slice? && cnt < |s.elems|
    requires Decode(vr, toks, p, if vr == Root then s.elems[cnt] else Zero(s.elemType), true) == Decoded(x, q, None)
    ensures SliceLoop(vr, toks, p, s, cnt) == SliceNext(vr, toks, q, s.(elems := s.elems[cnt := x]), cnt)
  {
  }

  /** After a slice element only `,` (the next element, at index cnt + 1) or `]` (the end) is accepted. */
  lemma SliceEnds(vr: Variant, toks: seq<string>, q: nat, s: Value, cnt: nat)
    requires q < |toks| && s.Slice?
    ensures toks[q] == "]" ==> SliceNext(vr, toks, q, s, cnt) == Decoded(s, q + 1, None)
    ensures toks[q] == "," ==> SliceNext(vr, toks, q, s, cnt) == SliceLoop(vr, toks, q + 1, s, cnt + 1)
    ensures toks[q] != "]" && toks[q] != "," ==> SliceNext(vr, toks, q, s, cnt) == Decoded(s, q + 1, Some(DecodeFailed))
  {
  }

  /** Array element i decodes in place, after a `,` unless it is the first. */
  lemma ArrayStep(vr: Variant, toks: seq<string>, pos: nat, cur: seq<Value>, i: nat, addr: bool, x: Value, q: nat)
    requires pos <= |toks| && i < |cur| && (i > 0 ==> pos < |toks| && toks[pos] == ",")
    requires Decode(vr, toks, if i > 0 then pos + 1 else pos, cur[i], addr) == Decoded(x, q, None)
    ensures ArrayLoop(vr, toks, pos, cur, i, addr) == ArrayLoop(vr, toks, q, cur[i := x], i + 1, addr)
  {
  }

  /** After exactly as many elements as the array has, the next token must be `]`. */
  lemma ArrayEnds(vr: Variant, toks: seq<string>, pos: nat, cur: seq<Value>, addr: bool)
    requires pos < |toks|
    ensures toks[pos] == "]" ==> ArrayLoop(vr, toks, pos, cur, |cur|, addr) == Decoded(Array(cur), pos + 1, None)
    ensures toks[pos] != "]" ==> ArrayLoop(vr, toks, pos, cur, |cur|, addr) == Decoded(Array(cur), pos + 1, Some(DecodeFailed))
  {
  }

  /** A key decoded without error and then `:`: the entry's value comes next. */
  lemma MapKeyStep(vr: Variant, toks: seq<string>, p: nat, m: Value, k: Value, q: nat)
    requires p <= |toks| && m.Map?
    requires Decode(vr, toks, p, Zero(m.keyType), true) == Decoded(k, q, None)
    requires q < |toks| && toks[q] == ":"
    ensures MapLoop(vr, toks, p, m) == MapValue(vr, toks, q + 1, m, k)
  {
    var kt := Zero(m.keyType);
    assert Decode(vr, toks, p, kt, true) == Decoded(k, q, None);
    assert Consume(toks, q, ":") == None;
  }

  /** The package copy: the value, decoded fresh, is stored under the key in a non-nil map. */
  lemma MapValueStep(toks: seq<string>, p: nat, m: Value, k: Value, x: Value, q: nat)
    requires p <= |toks| && m.Map? && !m.isNil
    requires Decode(Pkg, toks, p, Zero(m.valType), true) == Decoded(x, q, None)
    ensures MapValue(Pkg, toks, p, m, k) == MapNext(Pkg, toks, q, m.(entries := SetEntry(m.entries, k, x)))
  {
  }

  /** The root copy: the value is decoded, unaddressable, into the entry the key already has. */
  lemma RootMapValueStep(toks: seq<string>, p: nat, m: Value, k: Value, j: nat, x: Value, q: nat)
    requires p <= |toks| && m.Map? && !m.isNil && KeyIndex(m.entries, k) == Some(j)
    requires Decode(Root, toks, p, m.entries[j].1, false) == Decoded(x, q, None)
    ensures MapValue(Root, toks, p, m, k) == MapNext(Root, toks, q, m.(entries := m.entries[j := (k, x)]))
  {
  }

  /** The root copy cannot store a key the map does not hold. */
  lemma RootMapMissingKey(toks: seq<string>, p: nat, m: Value, k: Value)
    requires p <= |toks| && m.Map? && (m.isNil || KeyIndex(m.entries, k).None?)
    ensures MapValue(Root, toks, p, m, k) == Decoded(m, p, Some(Panic(ZeroValue)))
  {
  }

  /** After a map entry `}` ends the map, and any other token is skipped before the next entry. */
  lemma MapEnds(vr: Variant, toks: seq<string>, q: nat, m: Value)
    requires q < |toks| && m.Map?
    ensures toks[q] == "}" ==> MapNext(vr, toks, q, m) == Decoded(m, q + 1, None)
    ensures toks[q] != "}" ==> MapNext(vr, toks, q, m) == MapLoop(vr, toks, q + 1, m)
  {
  }

  /** Storing a key the map does not hold appends the entry. */
  lemma AppendFresh(es: seq<(Value, Value)>, k: Value, x: Value)
    requires forall a :: 0 <= a < |es| ==> es[a].0 != k
    ensures SetEntry(es, k, x) == es + [(k, x)]
  {
    assert KeyIndex(es, k) == None;
  }

  /** A quoted name, `:`, then the value of the exported field of that name, decoded in place. */
  lemma StructStep(vr: Variant, toks: seq<string>, p: nat, cur: seq<Field>, i: nat, addr: bool, x: Value, q: nat)
    requires i < |cur| && p + 1 < |toks| && toks[p] == "\"" + cur[i].name + "\"" && toks[p + 1] == ":"
    requires FieldIndex(cur, cur[i].name) == Some(i) && cur[i].exported
    requires Decode(vr, toks, p + 2, cur[i].value, addr) == Decoded(x, q, None)
    ensures StructLoop(vr, toks, p, cur, addr) == StructNext(vr, toks, q, cur[i := cur[i].(value := x)], addr)
  {
    var name := cur[i].name;
    assert Inner(toks[p]) == Success(name) by {
      var w := "\"" + name + "\"";
      assert w[1..|w| - 1] == name;
    }
  }

  /** A name with no exported field: nothing after the `:` is read, and the fields are unchanged. */
  lemma StructSkip(vr: Variant, toks: seq<string>, p: nat, fs: seq<Field>, addr: bool, name: string)
    requires p + 1 < |toks| && toks[p] == "\"" + name + "\"" && toks[p + 1] == ":"
    requires FieldIndex(fs, name).None? || !fs[FieldIndex(fs, name).value].exported
    ensures StructLoop(vr, toks, p, fs, addr) == StructNext(vr, toks, p + 2, fs, addr)
  {
    assert Inner(toks[p]) == Success(name) by {
      var w := "\"" + name + "\"";
      assert w[1..|w| - 1] == name;
    }
  }

  /** After a member `}` ends the struct, and any other token is skipped before the next member. */
  lemma StructEnds(vr: Variant, toks: seq<string>, q: nat, fs: seq<Field>, addr: bool)
    requires q < |toks|
    ensures toks[q] == "}" ==> StructNext(vr, toks, q, fs, addr) == Decoded(Struct(fs), q + 1, None)
    ensures toks[q] != "}" ==> StructNext(vr, toks, q, fs, addr) == StructLoop(vr, toks, q + 1, fs, addr)
  {
  }

  /** A uint up to the int64 maximum: its decimal text decodes, bare, into an addressable uint. */
  lemma UintToken(vr: Variant, toks: seq<string>, pos: nat, n: nat, j: nat)
    requires pos < |toks| && toks[pos] == NatToDecimal(n) && n <= MaxInt64
    ensures Decode(vr, toks, pos, Uint(j), true) == Decoded(Uint(n), pos + 1, None)
  {
    assert IntToDecimal(n) == NatToDecimal(n);
    AtoiOfDecimal(n);
    assert IsDigit(toks[pos][0]);
  }

  /**
   * Tokens from p on: the quoted name of exported field i, which is the
   * first field of that name, `:`, then a value that decodes, without
   * error, into the field as x, ending at q.
   */
  predicate MemberDecodes(vr: Variant, toks: seq<string>, p: nat, fs: seq<Field>, i: nat, x: Value, q: nat)
  {
    i < |fs| && p + 1 < |toks| && toks[p] == "\"" + fs[i].name + "\"" && toks[p + 1] == ":" &&
    FieldIndex(fs, fs[i].name) == Some(i) && fs[i].exported &&
    Decode(vr, toks, p + 2, fs[i].value, true) == Decoded(x, q, None)
  }

  /** A member of a struct decoded in place, then a comma: the next member comes next. */
  lemma MemberThenComma(vr: Variant, toks: seq<string>, p: nat, fs: seq<Field>, i: nat, x: Value, q: nat)
    requires MemberDecodes(vr, toks, p, fs, i, x, q) && q < |toks| && toks[q] == ","
    ensures StructLoop(vr, toks, p, fs, true) == StructLoop(vr, toks, q + 1, fs[i := fs[i].(value := x)], true)
  {
    StructStep(vr, toks, p, fs, i, true, x, q);
    StructEnds(vr, toks, q, fs[i := fs[i].(value := x)], true);
  }

  /** The last member of a struct decoded in place, then `}`. */
  lemma MemberThenClose(vr: Variant, toks: seq<string>, p: nat, fs: seq<Field>, i: nat, x: Value, q: nat)
    requires MemberDecodes(vr, toks, p, fs, i, x, q) && q < |toks| && toks[q] == "}"
    ensures StructLoop(vr, toks, p, fs, true) == Decoded(Struct(fs[i := fs[i].(value := x)]), q + 1, None)
  {
    StructStep(vr, toks, p, fs, i, true, x, q);
    StructEnds(vr, toks, q, fs[i := fs[i].(value := x)], true);
  }
}

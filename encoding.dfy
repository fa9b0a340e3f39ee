/**
 * What `Encoder.encode` appends to its buffer, as a function of the value.
 * Both copies of the codec are described: `Pkg` is rpc_yqaty/codec.go (used
 * by Marshal), `Root` is codec.go (used by the server and the client).
 */
module Encoding {
  import opened Wrappers
  import opened Errors
  import opened Strconv
  import opened GoValues

  datatype Variant = Pkg | Root

  /** The text appended to the buffer, and the error encode returned (if any) after appending it. */
  datatype Encoded = Encoded(text: string, err: Option<Error>)

  function Lit(s: string): Encoded
  {
    Encoded(s, None)
  }

  /** Two writes in a row: the second happens only when the first returned no error. */
  function Then(a: Encoded, b: Encoded): Encoded
  {
    if a.err.Some? then a else Encoded(a.text + b.text, b.err)
  }

  function Null(): Encoded
  {
    Lit("null")
  }

  /**
   * The errors encode returns: "unsupported type" for a kind without a case,
   * and, in the root copy only, the panic of a pointer chain that runs into
   * a nil pointer.
   */
  predicate EncodeError(vr: Variant, e: Error)
  {
    e.UnsupportedType? || (vr == Root && e == Panic(ZeroValue))
  }

  /** `encode(data)`. */
  function Encode(vr: Variant, v: Value): (r: Encoded)
    ensures r.err.Some? ==> EncodeError(vr, r.err.value)
    decreases v, 1
  {
    match v
    case Int(i) => Lit(IntToDecimal(i))
    case Uint(n) => Lit(NatToDecimal(n))
    case Bool(b) => Lit(FormatBool(b))
    case Str(s) => if s == "" then Null() else Lit("\"" + s + "\"")
    case Slice(_, isNil, es) =>
      if isNil then Null() else Then(Then(Lit("["), EncodeElems(vr, es, 0)), Lit("]"))
    case Array(es) =>
      if IsZero(v) then Null() else Then(Then(Lit("["), EncodeElems(vr, es, 0)), Lit("]"))
    case Map(_, _, isNil, es) =>
      if isNil then Null() else Then(Then(Lit("{"), EncodeEntries(vr, es, 0)), Lit("}"))
    case Ptr(p) =>
      if p.None? then Null()
      else if vr == Root then EncodeReferent(p.value)
      else Encode(vr, p.value)
    case Iface(d) => if d.None? then Null() else Encode(vr, d.value)
    case Struct(fs) => Then(Then(Lit("{"), EncodeFields(vr, fs, 0, true)), Lit("}"))
    case Unsupported(kind, _) => Encoded("", Some(UnsupportedType(kind)))
  }

  /**
   * The root copy's pointer case: follow `Elem()` while the value is a
   * pointer, then encode what was reached.  A nil pointer met on the way
   * yields the invalid reflect.Value, on which encode panics.
   */
  function EncodeReferent(x: Value): (r: Encoded)
    ensures r.err.Some? ==> EncodeError(Root, r.err.value)
    decreases x, 2
  {
    match x
    case Ptr(p) => if p.None? then Encoded("", Some(Panic(ZeroValue))) else EncodeReferent(p.value)
    case _ => Encode(Root, x)
  }

  /** The element loop of the slice and array cases, from index i on. */
  function EncodeElems(vr: Variant, es: seq<Value>, i: nat): (r: Encoded)
    requires i <= |es|
    ensures r.err.Some? ==> EncodeError(vr, r.err.value)
    decreases es, |es| - i
  {
    if i == |es| then Lit("")
    else Then(Then(Lit(if i > 0 then "," else ""), Encode(vr, es[i])), EncodeElems(vr, es, i + 1))
  }

  /** The key of a map entry: quotes are added around every key whose kind is not string. */
  function EncodeKey(vr: Variant, k: Value): (r: Encoded)
    ensures r.err.Some? ==> EncodeError(vr, r.err.value)
    decreases k, 2
  {
    if k.Str? then Encode(vr, k) else Then(Then(Lit("\""), Encode(vr, k)), Lit("\""))
  }

  /** The value of a map entry: the root copy adds quotes unless its kind is string or struct. */
  function EncodeMapValue(vr: Variant, x: Value): (r: Encoded)
    ensures r.err.Some? ==> EncodeError(vr, r.err.value)
    decreases x, 2
  {
    if vr == Root && !x.Str? && !x.Struct? then Then(Then(Lit("\""), Encode(vr, x)), Lit("\""))
    else Encode(vr, x)
  }

  /** The entry loop of the map case, from index i on, in enumeration order. */
  function EncodeEntries(vr: Variant, es: seq<(Value, Value)>, i: nat): (r: Encoded)
    requires i <= |es|
    ensures r.err.Some? ==> EncodeError(vr, r.err.value)
    decreases es, |es| - i
  {
    if i == |es| then Lit("")
    else
      assert es[i].0 < es[i] && es[i].1 < es[i];
      var entry := Then(Then(EncodeKey(vr, es[i].0), Lit(":")), EncodeMapValue(vr, es[i].1));
      Then(Then(Lit(if i > 0 then "," else ""), entry), EncodeEntries(vr, es, i + 1))
  }

  /** The field loop of the struct case, from index i on; `first` is the source's `flag`. */
  function EncodeFields(vr: Variant, fs: seq<Field>, i: nat, first: bool): (r: Encoded)
    requires i <= |fs|
    ensures r.err.Some? ==> EncodeError(vr, r.err.value)
    decreases fs, |fs| - i
  {
    if i == |fs| then Lit("")
    else if !fs[i].exported then EncodeFields(vr, fs, i + 1, first)
    else
      var head := Lit((if first then "" else ",") + "\"" + fs[i].name + "\":");
      Then(Then(head, Encode(vr, fs[i].value)), EncodeFields(vr, fs, i + 1, false))
  }

  /**
   * `JSONEncode(data)`: encode `reflect.ValueOf(data)`.  `arg` is the dynamic
   * value of data; `Iface(None)` stands for a nil `data`, whose reflect.Value
   * is the zero Value, on which encode panics.
   */
  function JSONEncode(vr: Variant, arg: Value): (r: Encoded)
    ensures arg == Iface(None) ==> r == Encoded("", Some(Panic(ZeroValue)))
    ensures arg != Iface(None) ==> r == Encode(vr, arg)
  {
    if arg == Iface(None) then Encoded("", Some(Panic(ZeroValue))) else Encode(vr, arg)
  }

  /** `Marshal(arg)`: the buffer's text and the error, both returned. */
  function Marshal(v: Value): Encoded
  {
    JSONEncode(Pkg, v)
  }

  // ---------------------------------------------------------------------------
  // When encode fails

  /**
   * The values encode accepts: no kind without a case is reached (through the
   * exported fields, the elements of non-nil containers and the targets of
   * non-nil pointers and interfaces) and, in the root copy, no pointer chain
   * runs into a nil pointer.
   */
  predicate Encodable(vr: Variant, v: Value)
    decreases v, 1
  {
    match v
    case Slice(_, isNil, es) => isNil || forall k :: 0 <= k < |es| ==> Encodable(vr, es[k])
    case Array(es) => IsZero(v) || forall k :: 0 <= k < |es| ==> Encodable(vr, es[k])
    case Map(_, _, isNil, es) =>
      isNil || forall k :: 0 <= k < |es| ==>
        // the key and the value of an entry are smaller than the entry
        (assert es[k].0 < es[k] && es[k].1 < es[k]; Encodable(vr, es[k].0) && Encodable(vr, es[k].1))
    case Ptr(p) => p.None? || (if vr == Root then ReferentEncodable(p.value) else Encodable(vr, p.value))
    case Iface(d) => d.None? || Encodable(vr, d.value)
    case Struct(fs) => forall k :: 0 <= k < |fs| && fs[k].exported ==> Encodable(vr, fs[k].value)
    case Unsupported(_, _) => false
    case _ => true
  }

  /** The root copy's pointer chain from x ends in a value that is not a nil pointer, and that value is encodable. */
  predicate ReferentEncodable(x: Value)
    decreases x, 2
  {
    match x
    case Ptr(p) => p.Some? && ReferentEncodable(p.value)
    case _ => Encodable(Root, x)
  }

  /** Encode returns no error exactly for the encodable values. */
  lemma {:induction false} EncodeSucceeds(vr: Variant, v: Value)
    ensures Encode(vr, v).err.None? <==> Encodable(vr, v)
    decreases v, 1
  {
    match v
    case Slice(_, isNil, es) => if !isNil { ElemsSucceed(vr, es, 0); }
    case Array(es) => if !IsZero(v) { ElemsSucceed(vr, es, 0); }
    case Map(_, _, isNil, es) => if !isNil { EntriesSucceed(vr, es, 0); }
    case Ptr(p) =>
      if p.Some? {
        if vr == Root { ReferentSucceeds(p.value); } else { EncodeSucceeds(vr, p.value); }
      }
    case Iface(d) => if d.Some? { EncodeSucceeds(vr, d.value); }
    case Struct(fs) => FieldsSucceed(vr, fs, 0, true);
    case _ =>
  }

  lemma {:induction false} ReferentSucceeds(x: Value)
    ensures EncodeReferent(x).err.None? <==> ReferentEncodable(x)
    decreases x, 2
  {
    match x
    case Ptr(p) => if p.Some? { ReferentSucceeds(p.value); }
    case _ => EncodeSucceeds(Root, x);
  }

  lemma {:induction false} ElemsSucceed(vr: Variant, es: seq<Value>, i: nat)
    requires i <= |es|
    ensures EncodeElems(vr, es, i).err.None? <==> forall k :: i <= k < |es| ==> Encodable(vr, es[k])
    decreases es, |es| - i
  {
    if i < |es| {
      EncodeSucceeds(vr, es[i]);
      ElemsSucceed(vr, es, i + 1);
    }
  }

  lemma {:induction false} EntriesSucceed(vr: Variant, es: seq<(Value, Value)>, i: nat)
    requires i <= |es|
    ensures EncodeEntries(vr, es, i).err.None? <==>
      forall k :: i <= k < |es| ==> Encodable(vr, es[k].0) && Encodable(vr, es[k].1)
    decreases es, |es| - i
  {
    if i < |es| {
      assert es[i].0 < es[i] && es[i].1 < es[i];
      EncodeSucceeds(vr, es[i].0);
      EncodeSucceeds(vr, es[i].1);
      EntriesSucceed(vr, es, i + 1);
    }
  }

  lemma {:induction false} FieldsSucceed(vr: Variant, fs: seq<Field>, i: nat, first: bool)
    requires i <= |fs|
    ensures EncodeFields(vr, fs, i, first).err.None? <==>
      forall k :: i <= k < |fs| && fs[k].exported ==> Encodable(vr, fs[k].value)
    decreases fs, |fs| - i
  {
    if i < |fs| {
      if fs[i].exported {
        EncodeSucceeds(vr, fs[i].value);
        FieldsSucceed(vr, fs, i + 1, false);
      } else {
        FieldsSucceed(vr, fs, i + 1, first);
      }
    }
  }

  // ---------------------------------------------------------------------------
  // When encode writes null

  /**
   * The values encode writes as the bare word null: the empty string, nil
   * slices, maps, pointers and interfaces, arrays whose elements are all zero,
   * and the same behind a non-nil pointer or interface.
   */
  predicate EncodesAsNull(vr: Variant, v: Value)
    decreases v, 1
  {
    match v
    case Str(s) => s == ""
    case Slice(_, isNil, _) => isNil
    case Array(_) => IsZero(v)
    case Map(_, _, isNil, _) => isNil
    case Ptr(p) => p.None? || (if vr == Root then ReferentNull(p.value) else EncodesAsNull(vr, p.value))
    case Iface(d) => d.None? || EncodesAsNull(vr, d.value)
    case _ => false
  }

  predicate ReferentNull(x: Value)
    decreases x, 2
  {
    match x
    case Ptr(p) => p.Some? && ReferentNull(p.value)
    case _ => EncodesAsNull(Root, x)
  }

  /** Encode writes exactly `null`, with no error, for those values and no others. */
  lemma {:induction false} NullExactly(vr: Variant, v: Value)
    ensures Encode(vr, v) == Null() <==> EncodesAsNull(vr, v)
    decreases v, 1
  {
    match v
    case Int(i) =>
      var d := NatToDecimal(if i < 0 then -i else i);
      assert IsDigit(d[0]);
      assert IntToDecimal(i)[0] != 'n';
    case Uint(n) => assert IsDigit(NatToDecimal(n)[0]);
    case Slice(_, isNil, es) => if !isNil { assert Encode(vr, v).text[0] == '['; }
    case Array(es) => if !IsZero(v) { assert Encode(vr, v).text[0] == '['; }
    case Map(_, _, isNil, es) => if !isNil { assert Encode(vr, v).text[0] == '{'; }
    case Struct(_) => assert Encode(vr, v).text[0] == '{';
    case Str(s) => if s != "" { assert Encode(vr, v).text[0] == '"'; }
    case Ptr(p) =>
      if p.Some? {
        if vr == Root { ReferentNullExactly(p.value); } else { NullExactly(vr, p.value); }
      }
    case Iface(d) => if d.Some? { NullExactly(vr, d.value); }
    case _ =>
  }

  lemma {:induction false} ReferentNullExactly(x: Value)
    ensures EncodeReferent(x) == Null() <==> ReferentNull(x)
    decreases x, 2
  {
    match x
    case Ptr(p) => if p.Some? { ReferentNullExactly(p.value); }
    case _ => NullExactly(Root, x);
  }

  // ---------------------------------------------------------------------------
  // The text of composite values

  /** `strings.Join`: the parts with sep between neighbours. */
  function Join(parts: seq<string>, sep: string): string
  {
    if parts == [] then "" else if |parts| == 1 then parts[0] else parts[0] + sep + Join(parts[1..], sep)
  }

  lemma JoinCons(parts: seq<string>, sep: string)
    requires parts != []
    ensures Join(parts, sep) == parts[0] + (if |parts| > 1 then sep else "") + Join(parts[1..], sep)
  {
  }

  lemma Assoc3(a: string, b: string, c: string)
    ensures a + (b + c) == a + b + c
  {
  }

  lemma Assoc4(a: string, b: string, c: string, d: string)
    ensures a + b + c + d == a + (b + c + d)
  {
  }

  /** The texts of a sequence of values, each encoded on its own. */
  function Texts(vr: Variant, es: seq<Value>): (r: seq<string>)
    ensures |r| == |es|
  {
    seq(|es|, k requires 0 <= k < |es| => Encode(vr, es[k]).text)
  }

  lemma {:induction false} ElemsJoin(vr: Variant, es: seq<Value>, i: nat)
    requires i <= |es|
    requires forall k :: i <= k < |es| ==> Encodable(vr, es[k])
    ensures EncodeElems(vr, es, i) == Lit((if 0 < i < |es| then "," else "") + Join(Texts(vr, es)[i..], ","))
    decreases |es| - i
  {
    if i < |es| {
      var ts := Texts(vr, es);
      EncodeSucceeds(vr, es[i]);
      assert Encode(vr, es[i]) == Lit(ts[i]);
      ElemsJoin(vr, es, i + 1);
      var rest := EncodeElems(vr, es, i + 1);
      var sep := if 0 < i < |es| then "," else "";
      var mid := if i + 1 < |es| then "," else "";
      var j := Join(ts[i + 1..], ",");
      assert rest == Lit(mid + j);
      assert EncodeElems(vr, es, i) == Lit(sep + ts[i] + rest.text);
      assert ts[i..][1..] == ts[i + 1..];
      JoinCons(ts[i..], ",");
      calc {
        sep + ts[i] + rest.text;
        sep + ts[i] + (mid + j);
        { Assoc3(sep + ts[i], mid, j); }
        sep + ts[i] + mid + j;
        { Assoc4(sep, ts[i], mid, j); }
        sep + (ts[i] + mid + j);
      }
    }
  }

  /** A non-nil slice is its elements' texts joined by commas, in brackets. */
  lemma SliceText(vr: Variant, et: Type, es: seq<Value>)
    requires forall k :: 0 <= k < |es| ==> Encodable(vr, es[k])
    ensures Encode(vr, Slice(et, false, es)) == Lit("[" + Join(Texts(vr, es), ",") + "]")
  {
    var j := Join(Texts(vr, es), ",");
    assert EncodeElems(vr, es, 0) == Lit(j) by {
      ElemsJoin(vr, es, 0);
      assert Texts(vr, es)[0..] == Texts(vr, es);
      assert "" + j == j;
    }
    assert Encode(vr, Slice(et, false, es)) == Then(Then(Lit("["), EncodeElems(vr, es, 0)), Lit("]"));
  }

  /** An array with a non-zero element is written like a slice. */
  lemma ArrayText(vr: Variant, es: seq<Value>)
    requires !IsZero(Array(es))
    requires forall k :: 0 <= k < |es| ==> Encodable(vr, es[k])
    ensures Encode(vr, Array(es)) == Lit("[" + Join(Texts(vr, es), ",") + "]")
  {
    var j := Join(Texts(vr, es), ",");
    assert EncodeElems(vr, es, 0) == Lit(j) by {
      ElemsJoin(vr, es, 0);
      assert Texts(vr, es)[0..] == Texts(vr, es);
      assert "" + j == j;
    }
    assert Encode(vr, Array(es)) == Then(Then(Lit("["), EncodeElems(vr, es, 0)), Lit("]"));
  }

  /** The exported fields, in declaration order. */
  function Exported(fs: seq<Field>): (r: seq<Field>)
    ensures forall k :: 0 <= k < |r| ==> r[k].exported && r[k] in fs
    ensures forall f :: f in fs && f.exported ==> f in r
  {
    if fs == [] then [] else (if fs[0].exported then [fs[0]] else []) + Exported(fs[1..])
  }

  lemma {:induction false} FieldsShift(vr: Variant, f: Field, fs: seq<Field>, i: nat, first: bool)
    requires i <= |fs|
    ensures EncodeFields(vr, [f] + fs, i + 1, first) == EncodeFields(vr, fs, i, first)
    decreases |fs| - i
  {
    assert ([f] + fs)[i + 1..] == fs[i..];
    if i < |fs| {
      assert ([f] + fs)[i + 1] == fs[i];
      FieldsShift(vr, f, fs, i + 1, false);
      FieldsShift(vr, f, fs, i + 1, first);
    }
  }

  lemma {:induction false} FieldsExported(vr: Variant, fs: seq<Field>, i: nat, first: bool)
    requires i <= |fs|
    ensures EncodeFields(vr, fs, i, first) == EncodeFields(vr, Exported(fs[i..]), 0, first)
    decreases |fs| - i
  {
    if i < |fs| {
      assert fs[i..][1..] == fs[i + 1..];
      if fs[i].exported {
        assert Exported(fs[i..]) == [fs[i]] + Exported(fs[i + 1..]);
        FieldsExported(vr, fs, i + 1, false);
        FieldsShift(vr, fs[i], Exported(fs[i + 1..]), 0, false);
      } else {
        assert Exported(fs[i..]) == Exported(fs[i + 1..]);
        FieldsExported(vr, fs, i + 1, first);
      }
    }
  }

  /** Unexported fields contribute nothing: a struct is written as its exported fields alone. */
  lemma UnexportedIgnored(vr: Variant, fs: seq<Field>)
    ensures Encode(vr, Struct(fs)) == Encode(vr, Struct(Exported(fs)))
  {
    FieldsExported(vr, fs, 0, true);
    assert fs[0..] == fs;
  }

  /** The `"Name":value` member texts of a sequence of fields. */
  function MemberTexts(vr: Variant, fs: seq<Field>): (r: seq<string>)
    ensures |r| == |fs|
  {
    seq(|fs|, k requires 0 <= k < |fs| => "\"" + fs[k].name + "\":" + Encode(vr, fs[k].value).text)
  }

  lemma {:induction false} FieldsJoin(vr: Variant, fs: seq<Field>, i: nat)
    requires i <= |fs|
    requires forall k :: 0 <= k < |fs| ==> fs[k].exported
    requires forall k :: i <= k < |fs| ==> Encodable(vr, fs[k].value)
    ensures EncodeFields(vr, fs, i, i == 0) == Lit((if 0 < i < |fs| then "," else "") + Join(MemberTexts(vr, fs)[i..], ","))
    decreases |fs| - i
  {
    if i < |fs| {
      var ts := MemberTexts(vr, fs);
      var e := Encode(vr, fs[i].value).text;
      var sep := if 0 < i < |fs| then "," else "";
      var mid := if i + 1 < |fs| then "," else "";
      var name := "\"" + fs[i].name + "\":";
      var j := Join(ts[i + 1..], ",");
      assert EncodeFields(vr, fs, i + 1, false) == Lit(mid + j) by { FieldsJoin(vr, fs, i + 1); }
      assert EncodeFields(vr, fs, i, i == 0) == Lit(sep + name + e + (mid + j)) by {
        FieldHead(vr, fs, i, i == 0);
        HeadSplit(sep, fs[i].name);
      }
      MemberJoin(vr, fs, i);
      Regroup(sep, name, e, mid, j);
    }
  }

  /** The members from i on are member i, a comma if more follow, then the rest. */
  lemma MemberJoin(vr: Variant, fs: seq<Field>, i: nat)
    requires i < |fs|
    ensures Join(MemberTexts(vr, fs)[i..], ",")
         == "\"" + fs[i].name + "\":" + Encode(vr, fs[i].value).text + (if i + 1 < |fs| then "," else "") +
            Join(MemberTexts(vr, fs)[i + 1..], ",")
  {
    var ts := MemberTexts(vr, fs);
    assert ts[i..][1..] == ts[i + 1..];
    JoinCons(ts[i..], ",");
  }

  /** An exported field that encodes: its separator, its quoted name and colon, its value's text, then the fields after it. */
  lemma FieldHead(vr: Variant, fs: seq<Field>, i: nat, first: bool)
    requires i < |fs| && fs[i].exported && Encodable(vr, fs[i].value)
    ensures Encode(vr, fs[i].value).err.None?
    ensures EncodeFields(vr, fs, i, first)
         == Then(Lit((if first then "" else ",") + "\"" + fs[i].name + "\":" + Encode(vr, fs[i].value).text),
                 EncodeFields(vr, fs, i + 1, false))
  {
    EncodeSucceeds(vr, fs[i].value);
  }

  lemma HeadSplit(sep: string, n: string)
    ensures sep + "\"" + n + "\":" == sep + ("\"" + n + "\":")
  {
  }

  lemma Regroup(a: string, b: string, c: string, d: string, e: string)
    ensures a + b + c + (d + e) == a + (b + c + d + e)
  {
  }

  /** A struct is `"Name":value` for each exported field in declaration order, joined by commas, in braces. */
  lemma StructText(vr: Variant, fs: seq<Field>)
    requires forall k :: 0 <= k < |fs| && fs[k].exported ==> Encodable(vr, fs[k].value)
    ensures Encode(vr, Struct(fs)) == Lit("{" + Join(MemberTexts(vr, Exported(fs)), ",") + "}")
  {
    UnexportedIgnored(vr, fs);
    ExportedEncodable(vr, fs);
    ExportedStructText(vr, Exported(fs));
  }

  lemma ExportedStructText(vr: Variant, ex: seq<Field>)
    requires forall k :: 0 <= k < |ex| ==> ex[k].exported && Encodable(vr, ex[k].value)
    ensures Encode(vr, Struct(ex)) == Lit("{" + Join(MemberTexts(vr, ex), ",") + "}")
  {
    var j := Join(MemberTexts(vr, ex), ",");
    assert EncodeFields(vr, ex, 0, true) == Lit(j) by {
      FieldsJoin(vr, ex, 0);
      assert MemberTexts(vr, ex)[0..] == MemberTexts(vr, ex);
      assert "" + j == j;
    }
    assert Encode(vr, Struct(ex)) == Then(Then(Lit("{"), EncodeFields(vr, ex, 0, true)), Lit("}"));
  }

  lemma ExportedEncodable(vr: Variant, fs: seq<Field>)
    requires forall k :: 0 <= k < |fs| && fs[k].exported ==> Encodable(vr, fs[k].value)
    ensures forall k :: 0 <= k < |Exported(fs)| ==> Encodable(vr, Exported(fs)[k].value)
  {
    var ex := Exported(fs);
    forall k | 0 <= k < |ex|
      ensures Encodable(vr, ex[k].value)
    {
      var j :| 0 <= j < |fs| && fs[j] == ex[k];
    }
  }

  /** The text between the quotes of a scalar map key. */
  function KeyBody(k: Value): string
    requires k.Int? || k.Uint? || k.Bool? || k.Str?
  {
    match k
    case Int(i) => IntToDecimal(i)
    case Uint(n) => NatToDecimal(n)
    case Bool(b) => FormatBool(b)
    case Str(s) => s
  }

  /**
   * A scalar key is wrapped in exactly one pair of quotes: the string case
   * writes them for a string key and the map case adds them for any other
   * kind, whose text has no quote of its own.  The empty string key is the
   * exception: it is written as a bare null.
   */
  lemma KeyQuoting(vr: Variant, k: Value)
    requires k.Int? || k.Uint? || k.Bool? || k.Str?
    ensures k == Str("") ==> EncodeKey(vr, k) == Null()
    ensures k != Str("") ==> EncodeKey(vr, k) == Lit("\"" + KeyBody(k) + "\"")
    ensures !k.Str? ==> '"' !in KeyBody(k)
  {
    if k.Int? || k.Uint? {
      var d := NatToDecimal(if k.Int? && k.i < 0 then -k.i else if k.Int? then k.i else k.n);
      assert forall c :: c in d ==> IsDigit(c);
    }
  }

  /** The `key:value` texts of a map's entries, in enumeration order. */
  function EntryTexts(vr: Variant, es: seq<(Value, Value)>): (r: seq<string>)
    ensures |r| == |es|
  {
    seq(|es|, k requires 0 <= k < |es| => EncodeKey(vr, es[k].0).text + ":" + EncodeMapValue(vr, es[k].1).text)
  }

  lemma {:induction false} EntriesJoin(vr: Variant, es: seq<(Value, Value)>, i: nat)
    requires i <= |es|
    requires forall k :: i <= k < |es| ==> Encodable(vr, es[k].0) && Encodable(vr, es[k].1)
    ensures EncodeEntries(vr, es, i) == Lit((if 0 < i < |es| then "," else "") + Join(EntryTexts(vr, es)[i..], ","))
    decreases |es| - i
  {
    if i < |es| {
      var ts := EntryTexts(vr, es);
      var key := EncodeKey(vr, es[i].0);
      var val := EncodeMapValue(vr, es[i].1);
      EncodeSucceeds(vr, es[i].0);
      EncodeSucceeds(vr, es[i].1);
      assert key.err.None? && val.err.None?;
      EntriesJoin(vr, es, i + 1);
      var rest := EncodeEntries(vr, es, i + 1);
      var sep := if 0 < i < |es| then "," else "";
      var mid := if i + 1 < |es| then "," else "";
      var j := Join(ts[i + 1..], ",");
      assert EncodeEntries(vr, es, i) == Lit(sep + (key.text + ":" + val.text) + rest.text);
      assert ts[i..][1..] == ts[i + 1..];
      JoinCons(ts[i..], ",");
      assert Join(ts[i..], ",") == (key.text + ":" + val.text) + mid + j;
      calc {
        sep + (key.text + ":" + val.text) + rest.text;
        sep + (key.text + ":" + val.text) + (mid + j);
        { Assoc3(sep + (key.text + ":" + val.text), mid, j); }
        sep + (key.text + ":" + val.text) + mid + j;
        { Assoc4(sep, key.text + ":" + val.text, mid, j); }
        sep + ((key.text + ":" + val.text) + mid + j);
      }
    }
  }

  /** A non-nil map is its entries' `key:value` texts in enumeration order, joined by commas, in braces. */
  lemma MapText(vr: Variant, kt: Type, vt: Type, es: seq<(Value, Value)>)
    requires forall k :: 0 <= k < |es| ==> Encodable(vr, es[k].0) && Encodable(vr, es[k].1)
    ensures Encode(vr, Map(kt, vt, false, es)) == Lit("{" + Join(EntryTexts(vr, es), ",") + "}")
  {
    EntriesJoin(vr, es, 0);
  }

  /** The package copy writes map values unwrapped; the root copy wraps every value that is not a string or a struct in quotes. */
  lemma MapValueQuoting(x: Value)
    requires Encodable(Root, x)
    ensures EncodeMapValue(Pkg, x) == Encode(Pkg, x)
    ensures x.Str? || x.Struct? ==> EncodeMapValue(Root, x) == Encode(Root, x)
    ensures !x.Str? && !x.Struct? ==> EncodeMapValue(Root, x) == Lit("\"" + Encode(Root, x).text + "\"")
  {
    EncodeSucceeds(Root, x);
  }

  // ---------------------------------------------------------------------------
  // Where the two copies differ

  /**
   * The values on which the two copies agree: no map value other than a
   * string or a struct (the root copy quotes the others) and no pointer to a
   * nil pointer (the root copy's pointer loop panics on it).
   */
  predicate SameInBoth(v: Value)
    decreases v, 1
  {
    match v
    case Slice(_, _, es) => forall k :: 0 <= k < |es| ==> SameInBoth(es[k])
    case Array(es) => forall k :: 0 <= k < |es| ==> SameInBoth(es[k])
    case Map(_, _, _, es) =>
      forall k :: 0 <= k < |es| ==>
        (assert es[k].0 < es[k] && es[k].1 < es[k];
         SameInBoth(es[k].0) && SameInBoth(es[k].1) && (es[k].1.Str? || es[k].1.Struct?))
    case Ptr(p) => p.None? || (p.value != Ptr(None) && SameInBoth(p.value))
    case Iface(d) => d.None? || SameInBoth(d.value)
    case Struct(fs) => forall k :: 0 <= k < |fs| ==> SameInBoth(fs[k].value)
    case _ => true
  }

  /** On those values both copies write the same text and return the same error. */
  lemma {:induction false} VariantsAgree(v: Value)
    requires SameInBoth(v)
    ensures Encode(Pkg, v) == Encode(Root, v)
    decreases v, 1
  {
    match v
    case Slice(_, _, es) => ElemsAgree(es, 0);
    case Array(es) => ElemsAgree(es, 0);
    case Map(_, _, _, es) => EntriesAgree(es, 0);
    case Ptr(p) => if p.Some? { ReferentAgrees(p.value); }
    case Iface(d) => if d.Some? { VariantsAgree(d.value); }
    case Struct(fs) => FieldsAgree(fs, 0, true);
    case _ =>
  }

  /** Following the pointer chain gives what the package copy's one-level step gives. */
  lemma {:induction false} ReferentAgrees(x: Value)
    requires x != Ptr(None) && SameInBoth(x)
    ensures Encode(Pkg, x) == EncodeReferent(x)
    decreases x, 2
  {
    match x
    case Ptr(p) => ReferentAgrees(p.value);
    case _ => VariantsAgree(x);
  }

  lemma {:induction false} ElemsAgree(es: seq<Value>, i: nat)
    requires i <= |es|
    requires forall k :: 0 <= k < |es| ==> SameInBoth(es[k])
    ensures EncodeElems(Pkg, es, i) == EncodeElems(Root, es, i)
    decreases es, |es| - i
  {
    if i < |es| {
      VariantsAgree(es[i]);
      ElemsAgree(es, i + 1);
    }
  }

  lemma {:induction false} EntriesAgree(es: seq<(Value, Value)>, i: nat)
    requires i <= |es|
    requires forall k :: 0 <= k < |es| ==>
      SameInBoth(es[k].0) && SameInBoth(es[k].1) && (es[k].1.Str? || es[k].1.Struct?)
    ensures EncodeEntries(Pkg, es, i) == EncodeEntries(Root, es, i)
    decreases es, |es| - i
  {
    if i < |es| {
      assert es[i].0 < es[i] && es[i].1 < es[i];
      VariantsAgree(es[i].0);
      VariantsAgree(es[i].1);
      EntriesAgree(es, i + 1);
    }
  }

  lemma {:induction false} FieldsAgree(fs: seq<Field>, i: nat, first: bool)
    requires i <= |fs|
    requires forall k :: 0 <= k < |fs| ==> SameInBoth(fs[k].value)
    ensures EncodeFields(Pkg, fs, i, first) == EncodeFields(Root, fs, i, first)
    decreases fs, |fs| - i
  {
    if i < |fs| {
      VariantsAgree(fs[i].value);
      FieldsAgree(fs, i + 1, false);
      FieldsAgree(fs, i + 1, first);
    }
  }

  // ---------------------------------------------------------------------------
  // Examples

  /** The encodings the package's tests expect. */
  lemma MarshalScalarExamples()
    ensures Marshal(Int(1)) == Lit("1")
    ensures Marshal(Str("ada")) == Lit("\"ada\"")
  {
  }

  lemma MarshalSliceExample()
    ensures Marshal(Slice(TInt, false, [Int(1), Int(2), Int(3)])) == Lit("[1,2,3]")
  {
  }

  lemma MarshalStructExample()
    ensures Marshal(Struct([Field("A", true, Int(1)), Field("B", true, Int(2))])) == Lit("{\"A\":1,\"B\":2}")
  {
  }

  /** A struct whose map field is nil. */
  lemma MarshalNilMapExample()
    ensures Marshal(Struct([Field("Mp", true, Map(TInt, TInt, true, []))])) == Lit("{\"Mp\":null}")
  {
  }

  /** `{1:2}`: the package copy writes `{"1":2}`, the root copy `{"1":"2"}`. */
  lemma MapQuotingExample()
    ensures Encode(Pkg, Map(TInt, TInt, false, [(Int(1), Int(2))])) == Lit("{\"1\":2}")
    ensures Encode(Root, Map(TInt, TInt, false, [(Int(1), Int(2))])) == Lit("{\"1\":\"2\"}")
  {
  }

  /** A pointer to a nil pointer: null in the package copy, a panic in the root copy. */
  lemma PointerChainExample()
    ensures Encode(Root, Ptr(Some(Ptr(Some(Int(7)))))) == Lit("7")
    ensures Encode(Pkg, Ptr(Some(Ptr(None)))) == Null()
    ensures Encode(Root, Ptr(Some(Ptr(None)))) == Encoded("", Some(Panic(ZeroValue)))
  {
  }

  /** An unsupported element stops the walk; what was written before it stays in the buffer. */
  lemma PartialOutputExample()
    ensures Marshal(Slice(TIface, false, [Iface(Some(Int(1))), Iface(Some(Unsupported("func", false)))]))
         == Encoded("[1,", Some(UnsupportedType("func")))
  {
  }

  /** Distinct values with the same text: no type tag is written for an interface. */
  lemma NoTypeTagExample()
    ensures Marshal(Iface(Some(Int(1)))) == Marshal(Iface(Some(Uint(1))))
  {
  }

  /** Distinct values with the same text: strings are not escaped. */
  lemma NoEscapeExample()
    ensures Marshal(Slice(TString, false, [Str("a"), Str("b")])) == Marshal(Slice(TString, false, [Str("a\",\"b")]))
  {
  }

  /** The empty-string key is written as a bare null. */
  lemma EmptyKeyExample()
    ensures Marshal(Map(TString, TInt, false, [(Str(""), Int(1))])) == Lit("{null:1}")
  {
  }

  /** An unexported field is left out. */
  lemma UnexportedExample()
    ensures Marshal(Struct([Field("A", true, Int(1)), Field("a", false, Int(2))])) == Lit("{\"A\":1}")
  {
  }

  // ---------------------------------------------------------------------------
  // Integers

  /** Integers are written in decimal: an int64's text reads back through Atoi, an unsigned value's text is its digits. */
  lemma IntegersAreDecimal(vr: Variant, i: int, n: nat)
    requires MinInt64 <= i <= MaxInt64
    ensures Encode(vr, Int(i)).err.None? && Atoi(Encode(vr, Int(i)).text) == Success(i)
    ensures Encode(vr, Uint(n)).err.None? && AllDigits(Encode(vr, Uint(n)).text)
    ensures DigitsValue(Encode(vr, Uint(n)).text) == n
  {
    AtoiOfDecimal(i);
    DecimalValue(n);
  }
}

/**
 * Decoding what encode wrote gives the value back, for the values the
 * scanner splits and the decoder reads without loss: scalars (ints and
 * uints in the int64 range, no negative int), non-empty slices of scalars
 * decoded into a slice of that length, and structs of distinct exported
 * scalar fields decoded into a struct of the same fields.  The target may
 * already hold values, as `reflect.New` of the type or a filled variable
 * does: decode overwrites every scalar in it.
 */
module RoundTrip {
  import opened Wrappers
  import opened Strconv
  import opened GoValues
  import opened Encoding
  import opened Decoding
  import opened Tokens

  /** The type of a scalar. */
  function ScalarType(v: Value): Type
    requires ScalarKind(v)
  {
    match v
    case Int(_) => TInt
    case Uint(_) => TUint
    case Bool(_) => TBool
    case Str(_) => TString
  }

  /**
   * A scalar that comes back: a non-negative int (the scanner splits the
   * sign off a negative one), a uint no larger than the int64 maximum
   * (decode parses it with `Atoi`), any bool, a string the scanner keeps whole.
   */
  predicate Readable(v: Value)
  {
    match v
    case Int(i) => 0 <= i <= MaxInt64
    case Uint(n) => n <= MaxInt64
    case Bool(_) => true
    case Str(s) => PlainText(s)
    case _ => false
  }

  /** A non-nil, non-empty slice of such scalars, of its element type. */
  predicate ReadableSlice(v: Value)
  {
    v.Slice? && !v.isNil && |v.elems| > 0 && ReadableElems(v.elems, v.elemType)
  }

  /** Fields that are all exported, with names the scanner keeps whole and no name twice, holding such scalars. */
  predicate ReadableFields(fs: seq<Field>)
  {
    (forall k :: 0 <= k < |fs| ==> fs[k].exported && PlainText(fs[k].name) && Readable(fs[k].value) && ScalarKind(fs[k].value)) &&
    forall j, k :: 0 <= j < k < |fs| ==> fs[j].name != fs[k].name
  }

  predicate ReadableStruct(v: Value)
  {
    v.Struct? && |v.fields| > 0 && ReadableFields(v.fields)
  }

  predicate Recoverable(v: Value)
  {
    Readable(v) || ReadableSlice(v) || ReadableStruct(v)
  }

  /** The fields, each holding the zero value of its type. */
  function Blanked(fs: seq<Field>): (r: seq<Field>)
    requires ReadableFields(fs)
    ensures |r| == |fs|
  {
    seq(|fs|, k requires 0 <= k < |fs| => fs[k].(value := Zero(ScalarType(fs[k].value))))
  }

  /**
   * The target decode starts from: `reflect.New` of v's type, except that a
   * slice is `make([]T, n)` with v's length, since decode never grows one.
   */
  function Blank(v: Value): Value
    requires Recoverable(v)
  {
    if ReadableSlice(v) then Slice(v.elemType, false, seq(|v.elems|, _ => Zero(v.elemType)))
    else if ReadableStruct(v) then Struct(Blanked(v.fields))
    else Zero(ScalarType(v))
  }

  /**
   * A scalar target that decoding v's token overwrites with v: of v's type,
   * and already empty when v is the empty string, which is written `null`
   * and so leaves the target as it was.
   */
  predicate Fits(t: Value, v: Value)
  {
    ScalarKind(t) && ScalarKind(v) && ScalarType(t) == ScalarType(v) && (v == Str("") ==> t == Str(""))
  }

  /** Element by element, targets that such elements overwrite. */
  predicate FittingElems(cs: seq<Value>, es: seq<Value>)
  {
    |cs| == |es| && forall k :: 0 <= k < |cs| ==> Fits(cs[k], es[k])
  }

  /** Field by field, the same exported names, holding targets that such values overwrite. */
  predicate FittingFields(cs: seq<Field>, fs: seq<Field>)
  {
    |cs| == |fs| &&
    forall k :: 0 <= k < |cs| ==> cs[k].name == fs[k].name && cs[k].exported && Fits(cs[k].value, fs[k].value)
  }

  /**
   * A target that decoding v's tokens turns into v: a non-nil slice of v's
   * element type and length, a struct of v's field names, or a scalar, each
   * holding scalars that v's overwrite.
   */
  predicate Target(t: Value, v: Value)
    requires Recoverable(v)
  {
    if ReadableSlice(v) then t.Slice? && t.elemType == v.elemType && !t.isNil && FittingElems(t.elems, v.elems)
    else if ReadableStruct(v) then t.Struct? && FittingFields(t.fields, v.fields)
    else Fits(t, v)
  }

  /** The zero of a scalar's type is a target for it. */
  lemma ZeroFits(x: Value)
    requires Readable(x)
    ensures ScalarKind(x) && Fits(Zero(ScalarType(x)), x)
  {
  }

  /** The blank target is a target. */
  lemma BlankIsTarget(v: Value)
    requires Recoverable(v)
    ensures Target(Blank(v), v)
  {
    if ReadableSlice(v) {
      assert forall k :: 0 <= k < |v.elems| ==> Fits(Blank(v).elems[k], v.elems[k]) by {
        forall k | 0 <= k < |v.elems| { ZeroFits(v.elems[k]); }
      }
    } else if ReadableStruct(v) {
      assert forall k :: 0 <= k < |v.fields| ==> Fits(Blank(v).fields[k].value, v.fields[k].value) by {
        forall k | 0 <= k < |v.fields| { ZeroFits(v.fields[k].value); }
      }
    } else {
      ZeroFits(v);
    }
  }

  /** A variable that already holds v is a target for it. */
  lemma FilledIsTarget(v: Value)
    requires Recoverable(v)
    ensures Target(v, v)
  {
  }

  // ---------------------------------------------------------------------------
  // Tokens in place

  lemma TokensAtSplit(toks: seq<string>, p: nat, a: seq<string>, b: seq<string>)
    requires TokensAt(toks, p, a + b)
    ensures TokensAt(toks, p, a) && TokensAt(toks, p + |a|, b)
  {
    assert toks[p..p + |a|] == (a + b)[..|a|];
    assert toks[p + |a|..p + |a| + |b|] == (a + b)[|a|..];
  }

  lemma TokensAtSplit3(toks: seq<string>, p: nat, a: seq<string>, b: seq<string>, c: seq<string>)
    requires TokensAt(toks, p, a + b + c)
    ensures TokensAt(toks, p, a) && TokensAt(toks, p + |a|, b) && TokensAt(toks, p + |a| + |b|, c)
  {
    TokensAtSplit(toks, p, a + b, c);
    TokensAtSplit(toks, p, a, b);
  }

  lemma TokenAt(toks: seq<string>, p: nat, hs: seq<string>, k: nat)
    requires TokensAt(toks, p, hs) && k < |hs|
    ensures toks[p + k] == hs[k]
  {
    assert toks[p..p + |hs|][k] == toks[p + k];
  }

  /** The tokens from p on are hs, then the token c. */
  predicate ClosedBy(toks: seq<string>, p: nat, hs: seq<string>, c: string)
  {
    TokensAt(toks, p, hs) && p + |hs| < |toks| && toks[p + |hs|] == c
  }

  /** A bracketed run: the opening token, the run, then the closing one. */
  lemma BracketedAt(toks: seq<string>, p: nat, o: string, hs: seq<string>, c: string)
    requires TokensAt(toks, p, [o] + hs + [c])
    ensures toks[p] == o && ClosedBy(toks, p + 1, hs, c)
  {
    TokensAtSplit3(toks, p, [o], hs, [c]);
    TokenAt(toks, p, [o], 0);
    TokenAt(toks, p + 1 + |hs|, [c], 0);
  }

  // ---------------------------------------------------------------------------
  // Scalars

  /** true and false decode, bare, into an addressable bool, whatever it held. */
  lemma BoolToken(vr: Variant, toks: seq<string>, pos: nat, b: bool, c: bool)
    requires pos < |toks| && toks[pos] == FormatBool(b)
    ensures Decode(vr, toks, pos, Bool(c), true) == Decoded(Bool(b), pos + 1, None)
  {
    ParseBoolOfFormat(b);
    assert toks[pos][0] != '"';
  }

  /** A scalar is written as one token. */
  lemma OneToken(vr: Variant, v: Value)
    requires Readable(v)
    ensures |Toks(vr, v)| == 1
  {
  }

  /** A scalar is one token, which decodes into any target fitting it as the scalar. */
  lemma ScalarRoundTrip(vr: Variant, toks: seq<string>, p: nat, v: Value, t: Value)
    requires Readable(v) && Fits(t, v) && TokensAt(toks, p, Toks(vr, v))
    ensures ScalarKind(v) && |Toks(vr, v)| == 1
    ensures Decode(vr, toks, p, t, true) == Decoded(v, p + 1, None)
  {
    TokenAt(toks, p, Toks(vr, v), 0);
    match v
    case Int(i) => IntToken(vr, toks, p, i, t.i);
    case Uint(n) => UintToken(vr, toks, p, n, t.n);
    case Bool(b) => BoolToken(vr, toks, p, b, t.b);
    case Str(s) =>
      if s == "" {
        NullLeavesTarget(vr, toks, p, Str(""), true);
      } else {
        StrToken(vr, toks, p, s, t.s);
      }
  }

  // ---------------------------------------------------------------------------
  // Slices

  /** Elements that are such scalars of type et. */
  predicate ReadableElems(es: seq<Value>, et: Type)
  {
    forall k :: 0 <= k < |es| ==> Readable(es[k]) && ScalarKind(es[k]) && ScalarType(es[k]) == et
  }

  /** Elements before cnt already decoded, the rest still targets for theirs. */
  predicate SliceSoFar(es: seq<Value>, cur: seq<Value>, cnt: nat)
  {
    |es| == |cur| && (forall k :: 0 <= k < cnt && k < |cur| ==> cur[k] == es[k]) &&
    forall k :: cnt <= k < |cur| ==> Fits(cur[k], es[k])
  }

  lemma SliceSoFarNext(es: seq<Value>, cur: seq<Value>, cnt: nat)
    requires SliceSoFar(es, cur, cnt) && cnt < |es|
    ensures SliceSoFar(es, cur[cnt := es[cnt]], cnt + 1)
    ensures cnt + 1 == |es| ==> cur[cnt := es[cnt]] == es
  {
  }

  /**
   * Element cnt decodes, into the element in its place (root copy) or a fresh
   * one (package copy), and `]` follows: the slice ends.
   */
  lemma ElemThenClose(vr: Variant, toks: seq<string>, p: nat, et: Type, cur: seq<Value>, cnt: nat, x: Value)
    requires cnt < |cur| && p + 1 < |toks| && toks[p + 1] == "]"
    requires Decode(vr, toks, p, if vr == Root then cur[cnt] else Zero(et), true) == Decoded(x, p + 1, None)
    ensures SliceLoop(vr, toks, p, Slice(et, false, cur), cnt) == Decoded(Slice(et, false, cur[cnt := x]), p + 2, None)
  {
    SliceStep(vr, toks, p, Slice(et, false, cur), cnt, x, p + 1);
    SliceEnds(vr, toks, p + 1, Slice(et, false, cur[cnt := x]), cnt);
  }

  /** Element cnt decodes as in `ElemThenClose`, and `,` follows: the slice ends as it does from element cnt + 1. */
  lemma ElemThenComma(vr: Variant, toks: seq<string>, p: nat, et: Type, cur: seq<Value>, cnt: nat, x: Value, r: Decoded)
    requires cnt < |cur| && p + 1 < |toks| && toks[p + 1] == ","
    requires Decode(vr, toks, p, if vr == Root then cur[cnt] else Zero(et), true) == Decoded(x, p + 1, None)
    requires SliceLoop(vr, toks, p + 2, Slice(et, false, cur[cnt := x]), cnt + 1) == r
    ensures SliceLoop(vr, toks, p, Slice(et, false, cur), cnt) == r
  {
    SliceStep(vr, toks, p, Slice(et, false, cur), cnt, x, p + 1);
    SliceEnds(vr, toks, p + 1, Slice(et, false, cur[cnt := x]), cnt);
  }

  /** Past the first element, each element's tokens follow a `,`. */
  lemma ElemToksNext(vr: Variant, es: seq<Value>, i: nat)
    requires 0 < i < |es|
    ensures ElemToks(vr, es, i) == [","] + Toks(vr, es[i]) + ElemToks(vr, es, i + 1)
  {
  }

  /** A `,` after element cnt: element cnt + 1 follows it, one token, and the rest are closed by `]`. */
  lemma CommaThenElem(vr: Variant, toks: seq<string>, p: nat, es: seq<Value>, cnt: nat)
    requires cnt + 1 < |es| && Readable(es[cnt + 1])
    requires ClosedBy(toks, p + 1, ElemToks(vr, es, cnt + 1), "]")
    ensures p + 1 < |toks| && toks[p + 1] == ","
    ensures TokensAt(toks, p + 2, Toks(vr, es[cnt + 1])) && ClosedBy(toks, p + 3, ElemToks(vr, es, cnt + 2), "]")
    ensures |ElemToks(vr, es, cnt + 1)| == 2 + |ElemToks(vr, es, cnt + 2)|
  {
    var t := Toks(vr, es[cnt + 1]);
    var e2 := ElemToks(vr, es, cnt + 2);
    ElemToksNext(vr, es, cnt + 1);
    TokensAtSplit3(toks, p + 1, [","], t, e2);
    OneToken(vr, es[cnt + 1]);
    TokenAt(toks, p + 1, [","], 0);
  }

  /** The last element, then `]`. */
  lemma LastElem(vr: Variant, toks: seq<string>, p: nat, et: Type, es: seq<Value>, cur: seq<Value>, cnt: nat)
    requires cnt + 1 == |es| && ReadableElems(es, et) && SliceSoFar(es, cur, cnt)
    requires TokensAt(toks, p, Toks(vr, es[cnt])) && ClosedBy(toks, p + 1, ElemToks(vr, es, cnt + 1), "]")
    ensures SliceLoop(vr, toks, p, Slice(et, false, cur), cnt)
         == Decoded(Slice(et, false, es), p + 1 + |ElemToks(vr, es, cnt + 1)| + 1, None)
  {
    assert ElemToks(vr, es, cnt + 1) == [];
    ElemDecodes(vr, toks, p, et, es, cur, cnt);
    SliceSoFarNext(es, cur, cnt);
    ElemThenClose(vr, toks, p, et, cur, cnt, es[cnt]);
  }

  /** Element cnt decodes, into the element in its place or a fresh one, as itself. */
  lemma ElemDecodes(vr: Variant, toks: seq<string>, p: nat, et: Type, es: seq<Value>, cur: seq<Value>, cnt: nat)
    requires cnt < |es| && ReadableElems(es, et) && SliceSoFar(es, cur, cnt)
    requires TokensAt(toks, p, Toks(vr, es[cnt]))
    ensures Decode(vr, toks, p, if vr == Root then cur[cnt] else Zero(et), true) == Decoded(es[cnt], p + 1, None)
  {
    ZeroFits(es[cnt]);
    ScalarRoundTrip(vr, toks, p, es[cnt], if vr == Root then cur[cnt] else Zero(et));
  }

  /**
   * From element cnt on: every element decodes over the target in its place,
   * the commas lead from one to the next, and `]` ends the slice with every
   * element back.
   */
  lemma {:induction false} ElemsFrom(vr: Variant, toks: seq<string>, p: nat, et: Type, es: seq<Value>, cur: seq<Value>, cnt: nat)
    requires cnt < |es| && ReadableElems(es, et) && SliceSoFar(es, cur, cnt)
    requires TokensAt(toks, p, Toks(vr, es[cnt])) && ClosedBy(toks, p + 1, ElemToks(vr, es, cnt + 1), "]")
    ensures SliceLoop(vr, toks, p, Slice(et, false, cur), cnt)
         == Decoded(Slice(et, false, es), p + 1 + |ElemToks(vr, es, cnt + 1)| + 1, None)
    decreases |es| - cnt
  {
    if cnt + 1 == |es| {
      LastElem(vr, toks, p, et, es, cur, cnt);
    } else {
      var r := Decoded(Slice(et, false, es), p + 1 + |ElemToks(vr, es, cnt + 1)| + 1, None);
      ElemDecodes(vr, toks, p, et, es, cur, cnt);
      assert SliceSoFar(es, cur[cnt := es[cnt]], cnt + 1) by {
        SliceSoFarNext(es, cur, cnt);
      }
      CommaThenElem(vr, toks, p, es, cnt);
      assert SliceLoop(vr, toks, p + 2, Slice(et, false, cur[cnt := es[cnt]]), cnt + 1) == r by {
        ElemsFrom(vr, toks, p + 2, et, es, cur[cnt := es[cnt]], cnt + 1);
      }
      ElemThenComma(vr, toks, p, et, cur, cnt, es[cnt], r);
    }
  }

  /** The first element of a non-empty slice's run, one token, then the rest closed by `]`. */
  lemma FirstElem(vr: Variant, toks: seq<string>, p: nat, et: Type, es: seq<Value>)
    requires 0 < |es| && ReadableElems(es, et) && ClosedBy(toks, p, ElemToks(vr, es, 0), "]")
    ensures TokensAt(toks, p, Toks(vr, es[0])) && ClosedBy(toks, p + 1, ElemToks(vr, es, 1), "]")
    ensures |ElemToks(vr, es, 0)| == 1 + |ElemToks(vr, es, 1)|
  {
    var e0 := ElemToks(vr, es, 0);
    var t := Toks(vr, es[0]);
    var e1 := ElemToks(vr, es, 1);
    assert e0 == t + e1 by {
      assert e0 == [] + t + e1;
      assert [] + t == t;
    }
    TokensAtSplit(toks, p, t, e1);
    assert |t| == 1 by { OneToken(vr, es[0]); }
  }

  /** Before the first element, no element is decoded yet. */
  lemma SliceSoFarStart(v: Value, t: Value)
    requires ReadableSlice(v) && Target(t, v)
    ensures t == Slice(v.elemType, false, t.elems) && SliceSoFar(v.elems, t.elems, 0)
  {
  }

  /** A `[` opens the element loop on the target. */
  lemma SliceOpens(vr: Variant, toks: seq<string>, p: nat, t: Value)
    requires p < |toks| && toks[p] == "[" && t.Slice?
    ensures Decode(vr, toks, p, t, true) == SliceLoop(vr, toks, p + 1, t, 0)
  {
  }

  /** A slice decodes from its tokens, into any non-nil slice of its element type and length holding fitting elements, as itself. */
  lemma SliceRoundTrip(vr: Variant, toks: seq<string>, p: nat, v: Value, t: Value)
    requires ReadableSlice(v) && Target(t, v) && TokensAt(toks, p, Toks(vr, v))
    ensures Decode(vr, toks, p, t, true) == Decoded(v, p + |Toks(vr, v)|, None)
  {
    var es := v.elems;
    var et := v.elemType;
    var e0 := ElemToks(vr, es, 0);
    var e1 := ElemToks(vr, es, 1);
    var zs := t.elems;
    assert Toks(vr, v) == ["["] + e0 + ["]"];
    assert toks[p] == "[" && ClosedBy(toks, p + 1, e0, "]") by {
      BracketedAt(toks, p, "[", e0, "]");
    }
    FirstElem(vr, toks, p + 1, et, es);
    SliceSoFarStart(v, t);
    assert SliceLoop(vr, toks, p + 1, Slice(et, false, zs), 0) == Decoded(Slice(et, false, es), p + 1 + 1 + |e1| + 1, None) by {
      ElemsFrom(vr, toks, p + 1, et, es, zs, 0);
    }
    SliceOpens(vr, toks, p, t);
  }

  // ---------------------------------------------------------------------------
  // Structs

  /** With distinct names, the first field of a name is the only one. */
  lemma FirstOfName(fs: seq<Field>, i: nat)
    requires i < |fs| && forall j, k :: 0 <= j < k < |fs| ==> fs[j].name != fs[k].name
    ensures FieldIndex(fs, fs[i].name) == Some(i)
  {
  }

  /** Fields before i already decoded, the rest of the same names still holding targets for theirs. */
  predicate StructSoFar(fs: seq<Field>, cur: seq<Field>, i: nat)
  {
    |fs| == |cur| && (forall k :: 0 <= k < i && k < |cur| ==> cur[k] == fs[k]) &&
    forall k :: i <= k < |cur| ==> cur[k].name == fs[k].name && cur[k].exported && Fits(cur[k].value, fs[k].value)
  }

  lemma StructSoFarNext(fs: seq<Field>, cur: seq<Field>, i: nat)
    requires ReadableFields(fs) && StructSoFar(fs, cur, i) && i < |fs|
    ensures cur[i].(value := fs[i].value) == fs[i]
    ensures StructSoFar(fs, cur[i := fs[i]], i + 1)
    ensures i + 1 == |fs| ==> cur[i := fs[i]] == fs
  {
  }

  /** The decoder finds field i of a partly decoded struct under its own name. */
  lemma StructSoFarIndex(fs: seq<Field>, cur: seq<Field>, i: nat)
    requires ReadableFields(fs) && StructSoFar(fs, cur, i) && i < |fs|
    ensures FieldIndex(cur, fs[i].name) == Some(i) && cur[i].name == fs[i].name && cur[i].exported
    ensures Fits(cur[i].value, fs[i].value)
  {
    assert forall k :: 0 <= k < |cur| ==> cur[k].name == fs[k].name;
    FirstOfName(cur, i);
  }

  /** The last member, then `}`. */
  lemma LastMember(vr: Variant, toks: seq<string>, p: nat, fs: seq<Field>, cur: seq<Field>, i: nat)
    requires ReadableFields(fs) && i + 1 == |fs| && StructSoFar(fs, cur, i)
    requires TokensAt(toks, p, [Quote(fs[i].name), ":"]) && TokensAt(toks, p + 2, Toks(vr, fs[i].value))
    requires ClosedBy(toks, p + 3, FieldToks(vr, fs, i + 1, false), "}")
    ensures StructLoop(vr, toks, p, cur, true) == Decoded(Struct(fs), p + 3 + |FieldToks(vr, fs, i + 1, false)| + 1, None)
  {
    MemberHead(vr, toks, p, fs, cur, i);
    StructSoFarNext(fs, cur, i);
    assert FieldToks(vr, fs, i + 1, false) == [];
    MemberThenClose(vr, toks, p, cur, i, fs[i].value, p + 3);
  }

  /** Member i's name finds its field, whose value decodes over the target there. */
  lemma MemberHead(vr: Variant, toks: seq<string>, p: nat, fs: seq<Field>, cur: seq<Field>, i: nat)
    requires ReadableFields(fs) && i < |fs| && StructSoFar(fs, cur, i)
    requires TokensAt(toks, p, [Quote(fs[i].name), ":"]) && TokensAt(toks, p + 2, Toks(vr, fs[i].value))
    ensures MemberDecodes(vr, toks, p, cur, i, fs[i].value, p + 3)
  {
    TokenAt(toks, p, [Quote(fs[i].name), ":"], 0);
    TokenAt(toks, p, [Quote(fs[i].name), ":"], 1);
    StructSoFarIndex(fs, cur, i);
    ScalarRoundTrip(vr, toks, p + 2, fs[i].value, cur[i].value);
  }

  /** A `,` after member i: member i + 1 follows it, three tokens, and the rest are closed by `}`. */
  lemma CommaThenMember(vr: Variant, toks: seq<string>, p: nat, fs: seq<Field>, i: nat)
    requires ReadableFields(fs) && i + 1 < |fs|
    requires ClosedBy(toks, p + 3, FieldToks(vr, fs, i + 1, false), "}")
    ensures p + 3 < |toks| && toks[p + 3] == ","
    ensures TokensAt(toks, p + 4, [Quote(fs[i + 1].name), ":"]) && TokensAt(toks, p + 6, Toks(vr, fs[i + 1].value))
    ensures ClosedBy(toks, p + 7, FieldToks(vr, fs, i + 2, false), "}")
    ensures |FieldToks(vr, fs, i + 1, false)| == 4 + |FieldToks(vr, fs, i + 2, false)|
  {
    var g := fs[i + 1];
    var m := MemberToks(vr, g);
    var f2 := FieldToks(vr, fs, i + 2, false);
    assert FieldToks(vr, fs, i + 1, false) == [","] + m + f2;
    TokensAtSplit3(toks, p + 3, [","], m, f2);
    TokenAt(toks, p + 3, [","], 0);
    TokensAtSplit(toks, p + 4, [Quote(g.name), ":"], Toks(vr, g.value));
    assert |m| == 3 by { OneToken(vr, g.value); }
  }

  /**
   * From field i on: each member's name finds its field, its value decodes
   * over the target there, and after the last `}` ends the struct with every
   * field back.
   */
  lemma {:induction false} FieldsFrom(vr: Variant, toks: seq<string>, p: nat, fs: seq<Field>, cur: seq<Field>, i: nat)
    requires ReadableFields(fs) && i < |fs| && StructSoFar(fs, cur, i)
    requires TokensAt(toks, p, [Quote(fs[i].name), ":"]) && TokensAt(toks, p + 2, Toks(vr, fs[i].value))
    requires ClosedBy(toks, p + 3, FieldToks(vr, fs, i + 1, false), "}")
    ensures StructLoop(vr, toks, p, cur, true) == Decoded(Struct(fs), p + 3 + |FieldToks(vr, fs, i + 1, false)| + 1, None)
    decreases |fs| - i
  {
    if i + 1 == |fs| {
      LastMember(vr, toks, p, fs, cur, i);
    } else {
      var r := Decoded(Struct(fs), p + 3 + |FieldToks(vr, fs, i + 1, false)| + 1, None);
      assert MemberDecodes(vr, toks, p, cur, i, fs[i].value, p + 3) by {
        MemberHead(vr, toks, p, fs, cur, i);
      }
      assert cur[i := cur[i].(value := fs[i].value)] == cur[i := fs[i]] && StructSoFar(fs, cur[i := fs[i]], i + 1) by {
        StructSoFarNext(fs, cur, i);
      }
      CommaThenMember(vr, toks, p, fs, i);
      assert StructLoop(vr, toks, p + 4, cur[i := fs[i]], true) == r by {
        FieldsFrom(vr, toks, p + 4, fs, cur[i := fs[i]], i + 1);
      }
      MemberThenComma(vr, toks, p, cur, i, fs[i].value, p + 3);
    }
  }

  /** The first member of a non-empty struct's run, three tokens, then the rest closed by `}`. */
  lemma FirstMember(vr: Variant, toks: seq<string>, p: nat, fs: seq<Field>)
    requires ReadableFields(fs) && 0 < |fs| && ClosedBy(toks, p, FieldToks(vr, fs, 0, true), "}")
    ensures TokensAt(toks, p, [Quote(fs[0].name), ":"]) && TokensAt(toks, p + 2, Toks(vr, fs[0].value))
    ensures ClosedBy(toks, p + 3, FieldToks(vr, fs, 1, false), "}")
    ensures |FieldToks(vr, fs, 0, true)| == 3 + |FieldToks(vr, fs, 1, false)|
  {
    var f0 := FieldToks(vr, fs, 0, true);
    var m := MemberToks(vr, fs[0]);
    var f1 := FieldToks(vr, fs, 1, false);
    assert f0 == m + f1 by {
      assert f0 == [] + m + f1;
      assert [] + m == m;
    }
    TokensAtSplit(toks, p, m, f1);
    TokensAtSplit(toks, p, [Quote(fs[0].name), ":"], Toks(vr, fs[0].value));
    assert |m| == 3 by { OneToken(vr, fs[0].value); }
  }

  /** Before the first member, no field is decoded yet. */
  lemma StructSoFarStart(v: Value, t: Value)
    requires ReadableStruct(v) && Target(t, v)
    ensures t.Struct? && StructSoFar(v.fields, t.fields, 0)
  {
  }

  /** A `{` opens the member loop on the target's fields. */
  lemma StructOpens(vr: Variant, toks: seq<string>, p: nat, t: Value)
    requires p < |toks| && toks[p] == "{" && t.Struct?
    ensures Decode(vr, toks, p, t, true) == StructLoop(vr, toks, p + 1, t.fields, true)
  {
  }

  /** A struct decodes from its tokens, into any struct of its field names holding fitting values, as itself. */
  lemma StructRoundTrip(vr: Variant, toks: seq<string>, p: nat, v: Value, t: Value)
    requires ReadableStruct(v) && Target(t, v) && TokensAt(toks, p, Toks(vr, v))
    ensures Decode(vr, toks, p, t, true) == Decoded(v, p + |Toks(vr, v)|, None)
  {
    var fs := v.fields;
    var f0 := FieldToks(vr, fs, 0, true);
    var f1 := FieldToks(vr, fs, 1, false);
    assert Toks(vr, v) == ["{"] + f0 + ["}"];
    assert toks[p] == "{" && ClosedBy(toks, p + 1, f0, "}") by {
      BracketedAt(toks, p, "{", f0, "}");
    }
    FirstMember(vr, toks, p + 1, fs);
    StructSoFarStart(v, t);
    assert StructLoop(vr, toks, p + 1, t.fields, true) == Decoded(Struct(fs), p + 1 + 3 + |f1| + 1, None) by {
      FieldsFrom(vr, toks, p + 1, fs, t.fields, 0);
    }
    StructOpens(vr, toks, p, t);
  }

  // ---------------------------------------------------------------------------
  // The round trip

  /** Such values are ones `Toks` splits correctly. */
  lemma RecoverableTokenizable(vr: Variant, v: Value)
    requires Recoverable(v)
    ensures Tokenizable(vr, v)
  {
    if ReadableSlice(v) {
      assert forall k :: 0 <= k < |v.elems| ==> Tokenizable(vr, v.elems[k]) by {
        forall k | 0 <= k < |v.elems| { ReadableIsTokenizable(vr, v.elems[k]); }
      }
    } else if ReadableStruct(v) {
      assert forall k :: 0 <= k < |v.fields| ==> Tokenizable(vr, v.fields[k].value) by {
        forall k | 0 <= k < |v.fields| { ReadableIsTokenizable(vr, v.fields[k].value); }
      }
    } else {
      ReadableIsTokenizable(vr, v);
    }
  }

  lemma ReadableIsTokenizable(vr: Variant, x: Value)
    requires Readable(x)
    ensures Tokenizable(vr, x)
  {
  }

  /** Such a value encodes without error, as the text its tokens make up. */
  lemma EncodesAsTokens(vr: Variant, v: Value)
    requires Recoverable(v)
    ensures Tokenizable(vr, v) && Encode(vr, v) == Lit(Concat(Toks(vr, v)))
  {
    RecoverableTokenizable(vr, v);
    TokensConcat(vr, v);
  }

  /** `JSONDecode` through a pointer decodes the pointer's target in place. */
  lemma ThroughPointer(vr: Variant, toks: seq<string>, p: nat, t: Value)
    requires p <= |toks|
    ensures var d := Decode(vr, toks, p, t, true);
            JSONDecode(vr, toks, p, Ptr(Some(t))) == Decoded(Ptr(Some(d.value)), d.pos, d.err)
  {
    assert JSONDecode(vr, toks, p, Ptr(Some(t))) == Decode(vr, toks, p, Ptr(Some(t)), false);
  }

  /** Each kind of such value decodes from its tokens into any of its targets. */
  lemma TargetDecodes(vr: Variant, toks: seq<string>, p: nat, v: Value, t: Value)
    requires Recoverable(v) && Target(t, v) && TokensAt(toks, p, Toks(vr, v))
    ensures Decode(vr, toks, p, t, true) == Decoded(v, p + |Toks(vr, v)|, None)
  {
    if ReadableSlice(v) {
      SliceRoundTrip(vr, toks, p, v, t);
    } else if ReadableStruct(v) {
      StructRoundTrip(vr, toks, p, v, t);
    } else {
      ScalarRoundTrip(vr, toks, p, v, t);
    }
  }

  /**
   * Encode succeeds with the text the tokens make up, and decoding those
   * tokens into a target (the blank one, `BlankIsTarget`, or one already
   * holding v, `FilledIsTarget`), directly or through a pointer to it as
   * `JSONDecode` does, gives exactly the value back and ends after its
   * last token.
   */
  lemma DecodeInverts(vr: Variant, toks: seq<string>, p: nat, v: Value, t: Value)
    requires Recoverable(v) && Target(t, v) && TokensAt(toks, p, Toks(vr, v))
    ensures Tokenizable(vr, v) && Encode(vr, v) == Lit(Concat(Toks(vr, v)))
    ensures Decode(vr, toks, p, t, true) == Decoded(v, p + |Toks(vr, v)|, None)
    ensures JSONDecode(vr, toks, p, Ptr(Some(t))) == Decoded(Ptr(Some(v)), p + |Toks(vr, v)|, None)
  {
    var n := |Toks(vr, v)|;
    assert Tokenizable(vr, v) && Encode(vr, v) == Lit(Concat(Toks(vr, v))) by {
      EncodesAsTokens(vr, v);
    }
    assert Decode(vr, toks, p, t, true) == Decoded(v, p + n, None) by {
      TargetDecodes(vr, toks, p, v, t);
    }
    ThroughPointer(vr, toks, p, t);
  }

  /** `UnMarshal` of `Marshal`'s tokens, whatever follows them, into a pointer to a target. */
  lemma UnMarshalInverts(v: Value, t: Value, rest: seq<string>)
    requires Recoverable(v) && Target(t, v)
    ensures Encode(Pkg, v) == Lit(Concat(Toks(Pkg, v)))
    ensures UnMarshal(Toks(Pkg, v) + rest, Ptr(Some(t))) == Decoded(Ptr(Some(v)), |Toks(Pkg, v)|, None)
  {
    var toks := Toks(Pkg, v) + rest;
    assert toks[0..|Toks(Pkg, v)|] == Toks(Pkg, v);
    DecodeInverts(Pkg, toks, 0, v, t);
  }

  // ---------------------------------------------------------------------------
  // The `Struct3` case of the package's unmarshal tests

  /** `Struct3{3, "ada", 5, true}`, all four fields exported. */
  function Struct3Value(): Value
  {
    Struct([Field("A", true, Int(3)), Field("B", true, Str("ada")), Field("C", true, Uint(5)), Field("D", true, Bool(true))])
  }

  /** The scanner's tokens of `{"A":3,"B":"ada","C":5,"D":true}`. */
  function Struct3Text(): seq<string>
  {
    ["{", "\"A\"", ":", "3", ",", "\"B\"", ":", "\"ada\"", ",", "\"C\"", ":", "5", ",", "\"D\"", ":", "true", "}"]
  }

  /** A member's tokens: its quoted name, `:`, then its value's one token. */
  lemma MemberIs(f: Field, name: string, tok: string)
    requires f.name == name && Toks(Pkg, f.value) == [tok]
    ensures MemberToks(Pkg, f) == [Quote(name), ":", tok]
  {
  }

  /** The member run of `Struct3{3, "ada", 5, true}`, field by field. */
  lemma Struct3Members()
    ensures FieldToks(Pkg, Struct3Value().fields, 0, true)
         == [Quote("A"), ":", "3", ",", Quote("B"), ":", "\"ada\"", ",", Quote("C"), ":", "5", ",", Quote("D"), ":", "true"]
  {
    var fs := Struct3Value().fields;
    assert IntToDecimal(3) == "3" && NatToDecimal(5) == "5";
    assert Quote("ada") == "\"ada\"";
    assert FormatBool(true) == "true";
    MemberIs(fs[0], "A", "3");
    MemberIs(fs[1], "B", "\"ada\"");
    MemberIs(fs[2], "C", "5");
    MemberIs(fs[3], "D", "true");
    var f3 := [","] + [Quote("D"), ":", "true"];
    var f2 := [","] + [Quote("C"), ":", "5"] + f3;
    var f1 := [","] + [Quote("B"), ":", "\"ada\""] + f2;
    assert FieldToks(Pkg, fs, 4, false) == [];
    assert FieldToks(Pkg, fs, 3, false) == f3;
    assert FieldToks(Pkg, fs, 2, false) == f2;
    assert FieldToks(Pkg, fs, 1, false) == f1;
    assert FieldToks(Pkg, fs, 0, true) == [Quote("A"), ":", "3"] + f1;
  }

  /** The test's string is what `Marshal` writes for that value. */
  lemma Struct3Marshalled()
    ensures Toks(Pkg, Struct3Value()) == Struct3Text()
  {
    Struct3Members();
    assert Quote("A") == "\"A\"" && Quote("B") == "\"B\"" && Quote("C") == "\"C\"" && Quote("D") == "\"D\"";
  }

  /**
   * `{"A":3,"B":"ada","C":5,"D":true}` into a `Struct3{A int; B string;
   * C uint; D bool}` that already holds `{3 ada 5 true}` gives `{3 ada 5 true}`
   * after all 17 tokens: the tokens are `Marshal`'s of that value, and a
   * variable holding it is a target for it.
   */
  lemma UnMarshalFilledStructTest()
    ensures UnMarshal(Struct3Text(), Ptr(Some(Struct3Value()))) == Decoded(Ptr(Some(Struct3Value())), 17, None)
  {
    var v := Struct3Value();
    assert Recoverable(v) by {
      assert ReadableStruct(v);
    }
    Struct3Marshalled();
    FilledIsTarget(v);
    UnMarshalInverts(v, v, []);
    assert Struct3Text() + [] == Struct3Text();
  }
}

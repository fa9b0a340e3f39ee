/**
 * The codec's text split into the tokens its decoder reads.
 *
 * The scanner itself (`text/scanner`) is not part of this model; `Toks`
 * states how it splits encode's output: numbers, `true`, `false` and
 * `null` are one token each, a quoted string is one token with its quotes,
 * and every bracket, comma and colon is a token of its own.  The lemma
 * `TokensConcat` shows that these tokens, put back together, are exactly
 * encode's text.
 */
module Tokens {
  import opened Wrappers
  import opened Strconv
  import opened GoValues
  import opened Encoding
  import opened Decoding

  /** A string the scanner keeps whole between quotes: no quote, backslash or newline. */
  predicate PlainText(s: string)
  {
    forall k :: 0 <= k < |s| ==> s[k] != '"' && s[k] != '\\' && s[k] != '\n'
  }

  function Quote(s: string): string
  {
    "\"" + s + "\""
  }

  /** The tokens from p on begin with hs. */
  predicate TokensAt(toks: seq<string>, p: nat, hs: seq<string>)
  {
    p + |hs| <= |toks| && toks[p..p + |hs|] == hs
  }

  /** The tokens' texts run together. */
  function Concat(ts: seq<string>): string
  {
    if ts == [] then "" else ts[0] + Concat(ts[1..])
  }

  // ---------------------------------------------------------------------------
  // The tokens of encode's output

  /** How the scanner splits `Encode(vr, v).text`. */
  function Toks(vr: Variant, v: Value): seq<string>
    decreases v, 1
  {
    match v
    case Int(i) => [IntToDecimal(i)]
    case Uint(n) => [NatToDecimal(n)]
    case Bool(b) => [FormatBool(b)]
    case Str(s) => if s == "" then ["null"] else [Quote(s)]
    case Slice(_, isNil, es) => if isNil then ["null"] else ["["] + ElemToks(vr, es, 0) + ["]"]
    case Array(es) => if IsZero(v) then ["null"] else ["["] + ElemToks(vr, es, 0) + ["]"]
    case Map(_, _, isNil, es) => if isNil then ["null"] else ["{"] + EntryToks(vr, es, 0) + ["}"]
    case Ptr(p) => if p.None? then ["null"] else Toks(vr, p.value)
    case Iface(d) => if d.None? then ["null"] else Toks(vr, d.value)
    case Struct(fs) => ["{"] + FieldToks(vr, fs, 0, true) + ["}"]
    case Unsupported(_, _) => []
  }

  function ElemToks(vr: Variant, es: seq<Value>, i: nat): seq<string>
    requires i <= |es|
    decreases es, |es| - i
  {
    if i == |es| then [] else (if i > 0 then [","] else []) + Toks(vr, es[i]) + ElemToks(vr, es, i + 1)
  }

  function EntryToks(vr: Variant, es: seq<(Value, Value)>, i: nat): seq<string>
    requires i <= |es|
    decreases es, |es| - i
  {
    if i == |es| then [] else (if i > 0 then [","] else []) + EntryBody(vr, es[i]) + EntryToks(vr, es, i + 1)
  }

  /** One `key:value` entry; a key that is not a string, and a root map value other than a string or struct, is one quoted token. */
  function EntryBody(vr: Variant, e: (Value, Value)): seq<string>
    decreases e, 0
  {
    assert e.0 < e && e.1 < e;
    KeyToks(vr, e.0) + [":"] + ValueToks(vr, e.1)
  }

  function KeyToks(vr: Variant, k: Value): seq<string>
    decreases k, 2
  {
    if k.Str? then Toks(vr, k) else [Quote(Encode(vr, k).text)]
  }

  function ValueToks(vr: Variant, x: Value): seq<string>
    decreases x, 2
  {
    if vr == Root && !x.Str? && !x.Struct? then [Quote(Encode(vr, x).text)] else Toks(vr, x)
  }

  function FieldToks(vr: Variant, fs: seq<Field>, i: nat, first: bool): seq<string>
    requires i <= |fs|
    decreases fs, |fs| - i
  {
    if i == |fs| then []
    else if !fs[i].exported then FieldToks(vr, fs, i + 1, first)
    else (if first then [] else [","]) + MemberToks(vr, fs[i]) + FieldToks(vr, fs, i + 1, false)
  }

  function MemberToks(vr: Variant, f: Field): seq<string>
    decreases f, 0
  {
    [Quote(f.name), ":"] + Toks(vr, f.value)
  }

  /** A key or value the scanner reads back as one token: a scalar, whose text has no quote. */
  predicate ScalarKind(x: Value)
  {
    x.Int? || x.Uint? || x.Bool? || x.Str?
  }

  /**
   * The values whose text `Toks` splits correctly: no negative int outside
   * quotes (the scanner reads the sign as a token of its own), no string or
   * field name the scanner would not keep whole, scalar map keys and, in the
   * root copy, scalar quoted map values; nothing encode refuses.
   */
  predicate Tokenizable(vr: Variant, v: Value)
    decreases v, 1
  {
    match v
    case Int(i) => i >= 0
    case Uint(_) => true
    case Bool(_) => true
    case Str(s) => PlainText(s)
    case Slice(_, isNil, es) => isNil || forall k :: 0 <= k < |es| ==> Tokenizable(vr, es[k])
    case Array(es) => IsZero(v) || forall k :: 0 <= k < |es| ==> Tokenizable(vr, es[k])
    case Map(_, _, isNil, es) =>
      isNil || forall k :: 0 <= k < |es| ==> EntryTokenizable(vr, es[k])
    case Ptr(p) => p.None? || (Tokenizable(vr, p.value) && (vr == Root ==> p.value != Ptr(None)))
    case Iface(d) => d.None? || Tokenizable(vr, d.value)
    case Struct(fs) => forall k :: 0 <= k < |fs| && fs[k].exported ==> PlainText(fs[k].name) && Tokenizable(vr, fs[k].value)
    case Unsupported(_, _) => false
  }

  predicate EntryTokenizable(vr: Variant, e: (Value, Value))
    decreases e, 0
  {
    assert e.0 < e && e.1 < e;
    ScalarKind(e.0) && Tokenizable(vr, e.0) &&
    if vr == Root && !e.1.Str? && !e.1.Struct? then e.1.Int? || e.1.Uint? || e.1.Bool?
    else Tokenizable(vr, e.1)
  }

  lemma ConcatOne(x: string)
    ensures Concat([x]) == x
  {
    assert [x][1..] == [];
  }

  lemma {:induction false} ConcatAppend(a: seq<string>, b: seq<string>)
    ensures Concat(a + b) == Concat(a) + Concat(b)
    decreases |a|
  {
    if a == [] {
      assert a + b == b;
    } else {
      assert (a + b)[1..] == a[1..] + b;
      ConcatAppend(a[1..], b);
      Assoc3(a[0], Concat(a[1..]), Concat(b));
    }
  }

  lemma ConcatThree(a: seq<string>, b: seq<string>, c: seq<string>)
    ensures Concat(a + b + c) == Concat(a) + Concat(b) + Concat(c)
  {
    ConcatAppend(a + b, c);
    ConcatAppend(a, b);
  }

  /** In the root copy a pointer chain that does not end in nil encodes like its first target. */
  lemma ReferentOfTarget(x: Value)
    requires x != Ptr(None)
    ensures EncodeReferent(x) == Encode(Root, x)
  {
  }

  /** The tokens run together are encode's text, and encode succeeds. */
  lemma {:induction false} TokensConcat(vr: Variant, v: Value)
    requires Tokenizable(vr, v)
    ensures Encode(vr, v) == Lit(Concat(Toks(vr, v)))
    decreases v, 2
  {
    match v
    case Int(i) => ConcatOne(IntToDecimal(i));
    case Uint(n) => ConcatOne(NatToDecimal(n));
    case Bool(b) => ConcatOne(FormatBool(b));
    case Str(s) => ConcatOne(if s == "" then "null" else Quote(s));
    case Slice(_, isNil, es) =>
      if isNil { ConcatOne("null"); }
      else { ElemsConcat(vr, es, 0); Bracketed("[", ElemToks(vr, es, 0), "]"); }
    case Array(es) =>
      if IsZero(v) { ConcatOne("null"); }
      else { ElemsConcat(vr, es, 0); Bracketed("[", ElemToks(vr, es, 0), "]"); }
    case Map(_, _, isNil, es) =>
      if isNil { ConcatOne("null"); }
      else { EntriesConcat(vr, es, 0); Bracketed("{", EntryToks(vr, es, 0), "}"); }
    case Ptr(p) =>
      if p.None? { ConcatOne("null"); }
      else {
        TokensConcat(vr, p.value);
        if vr == Root { ReferentOfTarget(p.value); }
      }
    case Iface(d) =>
      if d.None? { ConcatOne("null"); } else { TokensConcat(vr, d.value); }
    case Struct(fs) => FieldsConcat(vr, fs, 0, true); Bracketed("{", FieldToks(vr, fs, 0, true), "}");
  }

  lemma Bracketed(o: string, ts: seq<string>, c: string)
    ensures Concat([o] + ts + [c]) == o + Concat(ts) + c
  {
    ConcatThree([o], ts, [c]);
    ConcatOne(o);
    ConcatOne(c);
  }

  lemma {:induction false} ElemsConcat(vr: Variant, es: seq<Value>, i: nat)
    requires i <= |es|
    requires forall k :: 0 <= k < |es| ==> Tokenizable(vr, es[k])
    ensures EncodeElems(vr, es, i) == Lit(Concat(ElemToks(vr, es, i)))
    decreases es, |es| - i
  {
    if i < |es| {
      var sep: seq<string> := if i > 0 then [","] else [];
      TokensConcat(vr, es[i]);
      ElemsConcat(vr, es, i + 1);
      ConcatThree(sep, Toks(vr, es[i]), ElemToks(vr, es, i + 1));
      assert Concat(sep) == (if i > 0 then "," else "") by { if i > 0 { ConcatOne(","); } }
    }
  }

  lemma {:induction false} EntriesConcat(vr: Variant, es: seq<(Value, Value)>, i: nat)
    requires i <= |es|
    requires forall k :: 0 <= k < |es| ==> EntryTokenizable(vr, es[k])
    ensures EncodeEntries(vr, es, i) == Lit(Concat(EntryToks(vr, es, i)))
    decreases es, |es| - i
  {
    if i < |es| {
      var sep: seq<string> := if i > 0 then [","] else [];
      EntryConcat(vr, es[i]);
      EntriesConcat(vr, es, i + 1);
      ConcatThree(sep, EntryBody(vr, es[i]), EntryToks(vr, es, i + 1));
      assert Concat(sep) == (if i > 0 then "," else "") by { if i > 0 { ConcatOne(","); } }
    }
  }

  /** One entry: the quoting the map case adds is the quoting `KeyToks` and `ValueToks` assume. */
  lemma EntryConcat(vr: Variant, e: (Value, Value))
    requires EntryTokenizable(vr, e)
    ensures Then(Then(EncodeKey(vr, e.0), Lit(":")), EncodeMapValue(vr, e.1)) == Lit(Concat(EntryBody(vr, e)))
    decreases e, 0
  {
    var (k, x) := e;
    TokensConcat(vr, k);
    if vr == Root && !x.Str? && !x.Struct? {
      ConcatOne(Quote(Encode(vr, x).text));
    } else {
      TokensConcat(vr, x);
    }
    if !k.Str? { ConcatOne(Quote(Encode(vr, k).text)); }
    ConcatThree(KeyToks(vr, k), [":"], ValueToks(vr, x));
    ConcatOne(":");
  }

  lemma {:induction false} FieldsConcat(vr: Variant, fs: seq<Field>, i: nat, first: bool)
    requires i <= |fs|
    requires forall k :: 0 <= k < |fs| && fs[k].exported ==> PlainText(fs[k].name) && Tokenizable(vr, fs[k].value)
    ensures EncodeFields(vr, fs, i, first) == Lit(Concat(FieldToks(vr, fs, i, first)))
    decreases fs, |fs| - i
  {
    if i < |fs| {
      if !fs[i].exported {
        FieldsConcat(vr, fs, i + 1, first);
      } else {
        var sep: seq<string> := if first then [] else [","];
        var f := fs[i];
        var S := if first then "" else ",";
        var H := "\"" + f.name + "\":";
        MemberConcat(vr, f);
        FieldsConcat(vr, fs, i + 1, false);
        ConcatThree(sep, MemberToks(vr, f), FieldToks(vr, fs, i + 1, false));
        assert Concat(sep) == S by { if !first { ConcatOne(","); } }
        assert S + "\"" + f.name + "\":" == S + H;
        Assoc3(S, H, Encode(vr, f.value).text);
      }
    }
  }

  /** A member is its quoted name, a colon and its value. */
  lemma MemberConcat(vr: Variant, f: Field)
    requires Tokenizable(vr, f.value)
    ensures Encode(vr, f.value) == Lit(Concat(Toks(vr, f.value)))
    ensures Concat(MemberToks(vr, f)) == "\"" + f.name + "\":" + Encode(vr, f.value).text
    decreases f, 0
  {
    TokensConcat(vr, f.value);
    ConcatAppend([Quote(f.name), ":"], Toks(vr, f.value));
    assert [Quote(f.name), ":"][1..] == [":"];
    ConcatOne(":");
    assert Quote(f.name) + ":" == "\"" + f.name + "\":";
  }

}

/**
 * The decode cases of the package's test file (`TestUnMarshal`), each
 * derived turn by turn from the lemmas about one turn of a decode loop.
 * The token lists are what the scanner makes of the test's strings.
 */
module CodecTests {
  import opened Wrappers
  import opened Strconv
  import opened GoValues
  import opened Encoding
  import opened Decoding

  /** What `UnMarshal` into a non-nil pointer reports: the decode of the pointer's target, behind the pointer. */
  function Behind(d: Decoded): Decoded
  {
    Decoded(Ptr(Some(d.value)), d.pos, d.err)
  }

  /** `UnMarshal` into a pointer to a slice or a struct begins with that loop after the opening bracket. */
  lemma UnMarshalOpens(toks: seq<string>, t: Value)
    requires 0 < |toks|
    ensures t.Slice? && toks[0] == "[" ==> UnMarshal(toks, Ptr(Some(t))) == Behind(SliceLoop(Pkg, toks, 1, t, 0))
    ensures t.Struct? && toks[0] == "{" ==> UnMarshal(toks, Ptr(Some(t))) == Behind(StructLoop(Pkg, toks, 1, t.fields, true))
  {
    assert UnMarshal(toks, Ptr(Some(t))) == Decode(Pkg, toks, 0, Ptr(Some(t)), false);
    assert Decode(Pkg, toks, 0, Ptr(Some(t)), false) == Behind(Decode(Pkg, toks, 0, t, true));
  }

  lemma SmallDecimals()
    ensures IntToDecimal(1) == "1" && IntToDecimal(2) == "2" && IntToDecimal(3) == "3"
    ensures IntToDecimal(5) == "5" && NatToDecimal(5) == "5"
  {
  }

  // ---------------------------------------------------------------------------
  // Slices

  /** One turn of the package copy's slice loop over an int token followed by a comma. */
  lemma IntThenComma(toks: seq<string>, p: nat, s: Value, cnt: nat, i: int)
    requires p + 1 < |toks| && toks[p] == IntToDecimal(i) && MinInt64 <= i <= MaxInt64 && toks[p + 1] == ","
    requires s.Slice? && s.elemType == TInt && cnt < |s.elems|
    ensures SliceLoop(Pkg, toks, p, s, cnt) == SliceLoop(Pkg, toks, p + 2, s.(elems := s.elems[cnt := Int(i)]), cnt + 1)
  {
    IntToken(Pkg, toks, p, i, 0);
    SliceStep(Pkg, toks, p, s, cnt, Int(i), p + 1);
    SliceEnds(Pkg, toks, p + 1, s.(elems := s.elems[cnt := Int(i)]), cnt);
  }

  /** The last turn of the package copy's slice loop: an int token followed by `]`. */
  lemma IntThenClose(toks: seq<string>, p: nat, s: Value, cnt: nat, i: int)
    requires p + 1 < |toks| && toks[p] == IntToDecimal(i) && MinInt64 <= i <= MaxInt64 && toks[p + 1] == "]"
    requires s.Slice? && s.elemType == TInt && cnt < |s.elems|
    ensures SliceLoop(Pkg, toks, p, s, cnt) == Decoded(s.(elems := s.elems[cnt := Int(i)]), p + 2, None)
  {
    IntToken(Pkg, toks, p, i, 0);
    SliceStep(Pkg, toks, p, s, cnt, Int(i), p + 1);
    SliceEnds(Pkg, toks, p + 1, s.(elems := s.elems[cnt := Int(i)]), cnt);
  }

  /** The last two of three int elements. */
  lemma LastTwoInts(toks: seq<string>, s: Value, b: int, c: int)
    requires |toks| == 7 && toks[3] == IntToDecimal(b) && toks[4] == "," && toks[5] == IntToDecimal(c) && toks[6] == "]"
    requires MinInt64 <= b <= MaxInt64 && MinInt64 <= c <= MaxInt64
    requires s.Slice? && s.elemType == TInt && |s.elems| == 3
    ensures SliceLoop(Pkg, toks, 3, s, 1) == Decoded(s.(elems := [s.elems[0], Int(b), Int(c)]), 7, None)
  {
    var s2 := s.(elems := s.elems[1 := Int(b)]);
    assert SliceLoop(Pkg, toks, 3, s, 1) == SliceLoop(Pkg, toks, 5, s2, 2) by {
      IntThenComma(toks, 3, s, 1, b);
    }
    assert SliceLoop(Pkg, toks, 5, s2, 2) == Decoded(s2.(elems := s2.elems[2 := Int(c)]), 7, None) by {
      IntThenClose(toks, 5, s2, 2, c);
    }
    assert s2.(elems := s2.elems[2 := Int(c)]) == s.(elems := [s.elems[0], Int(b), Int(c)]);
  }

  /** `[a,b,c]` into any slice of three ints gives `[a b c]`. */
  lemma ThreeInts(toks: seq<string>, s: Value, a: int, b: int, c: int)
    requires |toks| == 7 && toks[1] == IntToDecimal(a) && toks[2] == ","
    requires toks[3] == IntToDecimal(b) && toks[4] == "," && toks[5] == IntToDecimal(c) && toks[6] == "]"
    requires MinInt64 <= a <= MaxInt64 && MinInt64 <= b <= MaxInt64 && MinInt64 <= c <= MaxInt64
    requires s.Slice? && s.elemType == TInt && |s.elems| == 3
    ensures SliceLoop(Pkg, toks, 1, s, 0) == Decoded(s.(elems := [Int(a), Int(b), Int(c)]), 7, None)
  {
    var s1 := s.(elems := s.elems[0 := Int(a)]);
    assert SliceLoop(Pkg, toks, 1, s, 0) == SliceLoop(Pkg, toks, 3, s1, 1) by {
      IntThenComma(toks, 1, s, 0, a);
    }
    assert s1.(elems := [s1.elems[0], Int(b), Int(c)]) == s.(elems := [Int(a), Int(b), Int(c)]);
    LastTwoInts(toks, s1, b, c);
  }

  /** `[1,2,3]` into a slice of three ints gives `[1 2 3]`. */
  lemma UnMarshalSliceTest()
    ensures UnMarshal(["[", "1", ",", "2", ",", "3", "]"], Ptr(Some(Slice(TInt, false, [Int(0), Int(0), Int(0)]))))
         == Decoded(Ptr(Some(Slice(TInt, false, [Int(1), Int(2), Int(3)]))), 7, None)
  {
    var toks := ["[", "1", ",", "2", ",", "3", "]"];
    var t := Slice(TInt, false, [Int(0), Int(0), Int(0)]);
    var d := Decoded(Slice(TInt, false, [Int(1), Int(2), Int(3)]), 7, None);
    assert SliceLoop(Pkg, toks, 1, t, 0) == d by {
      SmallDecimals();
      ThreeInts(toks, t, 1, 2, 3);
    }
    UnMarshalOpens(toks, t);
  }

  // ---------------------------------------------------------------------------
  // Structs

  /** The member `"B":b` and the closing brace. */
  lemma SecondMember(toks: seq<string>, fs: seq<Field>, b: int)
    requires |toks| == 9 && toks[5] == "\"B\"" && toks[6] == ":" && toks[7] == IntToDecimal(b) && toks[8] == "}"
    requires MinInt64 <= b <= MaxInt64
    requires |fs| == 2 && fs[0].name == "A" && fs[1].name == "B" && fs[1].exported && fs[1].value.Int?
    ensures StructLoop(Pkg, toks, 5, fs, true) == Decoded(Struct(fs[1 := fs[1].(value := Int(b))]), 9, None)
  {
    assert FieldIndex(fs, "B") == Some(1) by {
      assert fs[0].name != "B";
    }
    assert Decode(Pkg, toks, 7, fs[1].value, true) == Decoded(Int(b), 8, None) by {
      IntToken(Pkg, toks, 7, b, fs[1].value.i);
    }
    assert StructLoop(Pkg, toks, 5, fs, true) == Decoded(Struct(fs[1 := fs[1].(value := Int(b))]), 9, None) by {
      MemberThenClose(Pkg, toks, 5, fs, 1, Int(b), 8);
    }
  }

  /** `{"A":a,"B":b}` into a struct of two int fields `A` and `B` gives `{a b}`. */
  lemma TwoMembers(toks: seq<string>, fs: seq<Field>, a: int, b: int)
    requires |toks| == 9 && toks[1] == "\"A\"" && toks[2] == ":" && toks[3] == IntToDecimal(a) && toks[4] == ","
    requires toks[5] == "\"B\"" && toks[6] == ":" && toks[7] == IntToDecimal(b) && toks[8] == "}"
    requires MinInt64 <= a <= MaxInt64 && MinInt64 <= b <= MaxInt64
    requires |fs| == 2 && fs[0].name == "A" && fs[1].name == "B" && fs[0].exported && fs[1].exported
    requires fs[0].value.Int? && fs[1].value.Int?
    ensures StructLoop(Pkg, toks, 1, fs, true) == Decoded(Struct([fs[0].(value := Int(a)), fs[1].(value := Int(b))]), 9, None)
  {
    var fs1 := fs[0 := fs[0].(value := Int(a))];
    assert StructLoop(Pkg, toks, 1, fs, true) == StructLoop(Pkg, toks, 5, fs1, true) by {
      assert FieldIndex(fs, "A") == Some(0);
      assert Decode(Pkg, toks, 3, fs[0].value, true) == Decoded(Int(a), 4, None) by {
        IntToken(Pkg, toks, 3, a, fs[0].value.i);
      }
      MemberThenComma(Pkg, toks, 1, fs, 0, Int(a), 4);
    }
    assert StructLoop(Pkg, toks, 5, fs1, true) == Decoded(Struct(fs1[1 := fs1[1].(value := Int(b))]), 9, None) by {
      SecondMember(toks, fs1, b);
    }
    assert fs1[1 := fs1[1].(value := Int(b))] == [fs[0].(value := Int(a)), fs[1].(value := Int(b))];
  }

  /** `{"A":1,"B":2}` into a zero `Struct1{A, B int}` gives `{1 2}`. */
  lemma UnMarshalStructTest()
    ensures UnMarshal(["{", "\"A\"", ":", "1", ",", "\"B\"", ":", "2", "}"], Ptr(Some(Struct([Field("A", true, Int(0)), Field("B", true, Int(0))]))))
         == Decoded(Ptr(Some(Struct([Field("A", true, Int(1)), Field("B", true, Int(2))]))), 9, None)
  {
    var toks := ["{", "\"A\"", ":", "1", ",", "\"B\"", ":", "2", "}"];
    var fs := [Field("A", true, Int(0)), Field("B", true, Int(0))];
    UnMarshalOpens(toks, Struct(fs));
    SmallDecimals();
    TwoMembers(toks, fs, 1, 2);
  }

  // ---------------------------------------------------------------------------
  // Maps

  /** Tokens from p on: a quoted int64 key k, `:`, then the int64 value x. */
  predicate IntEntryAt(toks: seq<string>, p: nat, k: int, x: int)
  {
    p + 2 < |toks| && toks[p] == "\"" + IntToDecimal(k) + "\"" && toks[p + 1] == ":" && toks[p + 2] == IntToDecimal(x) &&
    MinInt64 <= k <= MaxInt64 && MinInt64 <= x <= MaxInt64
  }

  /** m is a non-nil package `map[int]int` that does not hold the key k. */
  predicate LacksIntKey(m: Value, k: int)
  {
    m.Map? && m.keyType == TInt && m.valType == TInt && !m.isNil &&
    forall a :: 0 <= a < |m.entries| ==> m.entries[a].0 != Int(k)
  }

  /** An entry whose key the map does not hold yet is appended. */
  lemma FreshIntEntry(toks: seq<string>, p: nat, m: Value, k: int, x: int)
    requires IntEntryAt(toks, p, k, x) && LacksIntKey(m, k)
    ensures MapLoop(Pkg, toks, p, m) == MapNext(Pkg, toks, p + 3, m.(entries := m.entries + [(Int(k), Int(x))]))
  {
    assert MapLoop(Pkg, toks, p, m) == MapValue(Pkg, toks, p + 2, m, Int(k)) by {
      QuotedIntToken(Pkg, toks, p, k, 0);
      MapKeyStep(Pkg, toks, p, m, Int(k), p + 1);
    }
    assert MapValue(Pkg, toks, p + 2, m, Int(k)) == MapNext(Pkg, toks, p + 3, m.(entries := SetEntry(m.entries, Int(k), Int(x)))) by {
      IntToken(Pkg, toks, p + 2, x, 0);
      MapValueStep(toks, p + 2, m, Int(k), Int(x), p + 3);
    }
    AppendFresh(m.entries, Int(k), Int(x));
  }

  /** The entry k:x from p on, followed by the token sep. */
  predicate EntryThen(toks: seq<string>, p: nat, k: int, x: int, sep: string)
  {
    IntEntryAt(toks, p, k, x) && p + 3 < |toks| && toks[p + 3] == sep
  }

  /** A fresh entry, then a comma: the next entry comes next. */
  lemma EntryThenComma(toks: seq<string>, p: nat, m: Value, k: int, x: int)
    requires EntryThen(toks, p, k, x, ",") && LacksIntKey(m, k)
    ensures MapLoop(Pkg, toks, p, m) == MapLoop(Pkg, toks, p + 4, m.(entries := m.entries + [(Int(k), Int(x))]))
  {
    FreshIntEntry(toks, p, m, k, x);
    MapEnds(Pkg, toks, p + 3, m.(entries := m.entries + [(Int(k), Int(x))]));
  }

  /** The last fresh entry, then `}`. */
  lemma EntryThenClose(toks: seq<string>, p: nat, m: Value, k: int, x: int)
    requires EntryThen(toks, p, k, x, "}") && LacksIntKey(m, k)
    ensures MapLoop(Pkg, toks, p, m) == Decoded(m.(entries := m.entries + [(Int(k), Int(x))]), p + 4, None)
  {
    FreshIntEntry(toks, p, m, k, x);
    MapEnds(Pkg, toks, p + 3, m.(entries := m.entries + [(Int(k), Int(x))]));
  }
}

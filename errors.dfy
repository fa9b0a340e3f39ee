/**
 * The error values the codec produces.  `Panic` is not a Go error value:
 * it stands for a run-time panic raised by the reflect package or by a
 * string slice expression, which ends the goroutine that raised it.
 */
module Errors {

  datatype Error =
    | DecodeFailed                          // errors.New("decode failed")
    | InvalidPointer                        // the JSONDecode pointer check
    | UnsupportedType(kind: string)         // the default case of encode and decode
    | NumSyntax(fn: string, input: string)  // a strconv syntax error
    | NumRange(fn: string, input: string)   // a strconv range error
    | Panic(what: string)                   // a run-time panic
    | EOF                                   // io.EOF, which ServeConn tests for
  {
    /** The text `err.Error()` gives; this is what travels in a response header. */
    function Text(): string
    {
      match this
      case DecodeFailed => "decode failed"
      case InvalidPointer => "parameter must be a vaild pointer"
      case UnsupportedType(kind) => "unsupported type: " + kind
      case NumSyntax(fn, input) => "strconv." + fn + ": parsing " + GoQuote(input) + ": invalid syntax"
      case NumRange(fn, input) => "strconv." + fn + ": parsing " + GoQuote(input) + ": value out of range"
      case Panic(what) => "panic: " + what
      case EOF => "EOF"
    }
  }

  const IndexOutOfRange := "runtime error: index out of range"
  const SliceOutOfRange := "runtime error: slice bounds out of range"
  const ZeroValue := "reflect: call of reflect.Value.CanInterface on zero Value"
  const NilMap := "assignment to entry in nil map"
  const SliceIndex := "reflect: slice index out of range"

  /** The panic of a `reflect.Value` setter (SetInt, SetString, ...) called on a value that is not addressable. */
  function Unaddressable(setter: string): string
  {
    "reflect: reflect.Value." + setter + " using unaddressable value"
  }

  // ---------------------------------------------------------------------------
  // strconv.Quote, which a NumError's text puts its input through

  const HexDigits := "0123456789abcdef"

  /**
   * What `strconv.Quote` writes for one character: a backslash before `"`
   * and `\`, the named escape of a control character that has one, `\x`
   * and two hex digits for any other control character and for DEL; any
   * other character is kept.
   */
  function QuoteChar(c: char): (r: string)
    ensures |r| >= 1
    ensures r == [c] <==> ' ' <= c && c != '"' && c != '\\' && c as int != 0x7f
  {
    if c == '"' then "\\\""
    else if c == '\\' then "\\\\"
    else if c as int == 7 then "\\a"
    else if c as int == 8 then "\\b"
    else if c as int == 12 then "\\f"
    else if c == '\n' then "\\n"
    else if c == '\r' then "\\r"
    else if c == '\t' then "\\t"
    else if c as int == 11 then "\\v"
    else if c < ' ' || c as int == 0x7f then "\\x" + [HexDigits[c as int / 16], HexDigits[c as int % 16]]
    else [c]
  }

  function Escape(s: string): string
  {
    if s == [] then "" else QuoteChar(s[0]) + Escape(s[1..])
  }

  /** `strconv.Quote(s)`. */
  function GoQuote(s: string): string
  {
    "\"" + Escape(s) + "\""
  }

  /** A character strconv.Quote keeps as it is. */
  predicate Printable(c: char)
  {
    ' ' <= c && c != '"' && c != '\\' && c as int != 0x7f
  }

  /** Text without quotes, backslashes or control characters is quoted as it is. */
  lemma {:induction false} QuotePlain(s: string)
    requires forall k :: 0 <= k < |s| ==> Printable(s[k])
    ensures GoQuote(s) == "\"" + s + "\""
  {
    EscapePlain(s);
  }

  lemma {:induction false} EscapePlain(s: string)
    requires forall k :: 0 <= k < |s| ==> Printable(s[k])
    ensures Escape(s) == s
  {
    if s != [] {
      EscapePlain(s[1..]);
      assert QuoteChar(s[0]) == [s[0]];
      assert [s[0]] + s[1..] == s;
    }
  }

  lemma EscapeOne(c: char)
    ensures Escape([c]) == QuoteChar(c)
  {
    assert [c][1..] == [];
  }

  lemma {:induction false} EscapeAppend(a: string, b: string)
    ensures Escape(a + b) == Escape(a) + Escape(b)
  {
    if a == [] {
      assert a + b == b;
    } else {
      assert (a + b)[1..] == a[1..] + b;
      EscapeAppend(a[1..], b);
    }
  }

  /** A quote or a backslash in a parsed token comes out escaped in the error text. */
  lemma QuoteExample()
    ensures GoQuote("1\"2") == "\"1\\\"2\""
    ensures GoQuote("a\\b") == "\"a\\\\b\""
  {
    assert "1\"2" == ['1'] + ['"'] + ['2'];
    EscapeAppend(['1'] + ['"'], ['2']);
    EscapeAppend(['1'], ['"']);
    EscapeOne('1');
    EscapeOne('"');
    EscapeOne('2');
    assert "a\\b" == ['a'] + ['\\'] + ['b'];
    EscapeAppend(['a'] + ['\\'], ['b']);
    EscapeAppend(['a'], ['\\']);
    EscapeOne('a');
    EscapeOne('\\');
    EscapeOne('b');
  }
}

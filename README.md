# rpc_yqaty in Dafny

rpc_yqaty is a small RPC library. A client sends calls over one connection and a server answers them.

- **Codec.** Both sides talk through a type-directed text codec. An `Encoder` walks a value by reflect kind and appends its text to a buffer. A `Decoder` pulls tokens from a scanner and fills a target it is given. The codec exists twice:
  - `rpc_yqaty/codec.go`, the package copy, behind `Marshal` and `UnMarshal`;
  - `codec.go`, the root copy, used by the server and the client.
  The two differ in map-value quoting, pointer chasing, and slice and map decoding.
- **Server.** It keeps a registry of callable functions, checked by `Register`. It answers one request per turn of the `ServeConn` loop.
- **Client.** It keeps a table of pending calls keyed by sequence number, a counter and a `closing` flag. `Deal`, `Listen`, `Close` and `Call` update them.

The modules are:

| module | file | what it holds |
|---|---|---|
| `Wrappers`, `Errors`, `Strconv` | wrappers.dfy, errors.dfy, strconv.dfy | Option/Result, the errors the codec returns with their `Error()` texts, `%d`, `%t`, `strconv.Atoi` and `strconv.ParseBool` |
| `GoValues` | values.dfy | the values the codec walks, one constructor per reflect kind; zero values; `FieldByName`; `SetMapIndex` |
| `Encoding` | encoding.dfy | what `encode` appends, for both copies, as functions; the properties of the text |
| `Decoding` | decoding.dfy | what `decode` does to the token position and the target, for both copies, as functions; the properties of one loop turn |
| `Codec` | codec.dfy | the `Encoder` and `Decoder` classes, whose methods append and read step by step and are proved equal to those functions |
| `Tokens` | tokens.dfy | how the scanner splits encode's output |
| `CodecTests` | codec_tests.dfy | the decode cases of the package's tests, derived turn by turn |
| `RoundTrip` | roundtrip.dfy | decoding encode's tokens gives the value back, for scalars, slices of scalars and flat structs of scalars, into a fresh target or one already holding values, and the `Struct3` case of the tests, derived from that |
| `Protocol` | protocol.dfy | `Request`, `Response`, `Data` and the frame both sides write |
| `RpcServer` | server.dfy | `Register`, `ServerCodec` and the `ServeConn` loop |
| `RpcClient` | client.dfy | `Query`, `ClientCodec` and `Client` |

Go's reflection writes decoded values into the target in place. Here decode returns the updated target instead, and a flag `addr` records whether Go would allow the store. A panic is an explicit `Panic` error. Both copies are described by one set of functions with a `Variant` parameter, `Pkg` or `Root`. A panic that escapes a goroutine ends the process: a server turn or a client turn that panics writes nothing more and ends the loop (`Abort`, `Aborted`).

Some behaviour of the source is stated as lemmas rather than corrected:

- once the peer has hung up, the server loop spins, writing the same error frame on every turn (`RpcServer.ServesForever`);
- a sequence number above the int64 maximum cannot be read back, because uints are parsed with `Atoi` (`Decoding.LargeUintRefused`, `Strconv.AtoiRejectsLargeUint`), so `Protocol.RequestRoundTrip` holds only up to that maximum;
- after the uint64 counter wraps, a new call may get a number already on the table (`RpcClient.WrapReusesZero`);
- an unknown struct member's value is not skipped, which throws the member loop off (`Decoding.UnknownFieldExample`);
- the encoder writes a string between quotes without escaping it, so a header string holding a quote, a backslash or a newline is not read back. The server's answer to arguments that do not parse is such a header: its error text is a strconv error, which holds the input between quotes (`Protocol.NumErrorNotPlain`), so that answer throws the client's `Listen` off. `Protocol.RequestRoundTrip`, `Protocol.ResponseRoundTrip`, `RpcServer.WellFormedRequest` and `RpcClient.ServerErrorHeard` hold for header strings without these characters.

## Model

| member | source | states |
|---|---|---|
| Strconv.NatToDecimal | rpc_yqaty/codec.go:26-32 | `%d` of a non-negative number is a non-empty digit string with no leading zero |
| Strconv.IntToDecimal | rpc_yqaty/codec.go:26-28 | `%d` of an int starts with `-` exactly when it is negative, followed by a digit string with no leading zero |
| Strconv.FormatBool | rpc_yqaty/codec.go:38-39 | `%t` is `true` or `false`, and begins with `t` exactly for true |
| Strconv.ParseBool | rpc_yqaty/codec.go:231-238 | a failure is a syntax error naming the input; a success reads one to five characters and is true exactly when the first is `1`, `t` or `T` |
| Strconv.Atoi | rpc_yqaty/codec.go:179-182 | a successful parse lies in the int64 range; a failure is a syntax or range error naming the input |
| Strconv.DecimalValue | rpc_yqaty/codec.go:26-32 | the digits `%d` writes read back as the number |
| Strconv.AtoiOfDecimal | rpc_yqaty/codec.go:168-184 | `Atoi` inverts `%d` on the whole int64 range |
| Strconv.AtoiRejectsLargeUint | rpc_yqaty/codec.go:186-202 | a uint64 above the int64 maximum is written as digits that `Atoi` rejects with a range error |
| Strconv.ParseBoolOfFormat | rpc_yqaty/codec.go:222-238 | `ParseBool` inverts `%t` |
| Errors.QuoteChar | rpc_yqaty/codec.go:179-182 | `strconv.Quote` keeps a character exactly when it is not a quote, a backslash, a control character or DEL |
| Errors.EscapePlain | rpc_yqaty/codec.go:179-182 | escaping leaves text with no such character as it is |
| Errors.QuotePlain | rpc_yqaty/codec.go:179-182 | quoting such text only adds the two quotes |
| Errors.QuoteExample | server.go:161-164 | a quote or a backslash in a refused argument token comes out escaped in the error text the server sends |
| GoValues.Zero | rpc_yqaty/codec.go:279 | a fresh `reflect.New(t).Elem()` is a zero value |
| GoValues.FieldIndex | rpc_yqaty/codec.go:368-370 | `FieldByName` finds the first field of that name, and reports none only when no field has it |
| GoValues.KeyIndex | codec.go:313-343 | the position of a key in the map's entries, or none when no entry has it |
| GoValues.SetEntry | rpc_yqaty/codec.go:322 | `SetMapIndex` leaves the key mapped to the value, keeps every other entry at its place with its value, and adds no other key |
| Encoding.JSONEncode | rpc_yqaty/codec.go:17-19 | a nil `data` panics with nothing written; any other argument is encoded as its dynamic value |
| Encoding.Encode | rpc_yqaty/codec.go:21-127 | encode's only errors are "unsupported type" and, in the root copy, the panic on a nil pointer at the end of a chain |
| Encoding.EncodeReferent | codec.go:100-111 | following the root copy's pointer chain fails only with "unsupported type" or that panic |
| Encoding.EncodeSucceeds | rpc_yqaty/codec.go:21-127 | encode returns no error exactly for the values with no unsupported kind reachable (and, in the root copy, no pointer chain ending in nil) |
| Encoding.NullExactly | rpc_yqaty/codec.go:42-103 | encode writes exactly `null` for the empty string, nil slices, maps, pointers and interfaces, all-zero arrays, and these behind non-nil pointers and interfaces, and for nothing else |
| Encoding.SliceText | rpc_yqaty/codec.go:42-57 | a non-nil slice is its elements' texts joined by `,` in brackets |
| Encoding.ArrayText | rpc_yqaty/codec.go:42-57 | an array with a non-zero element is written like a slice |
| Encoding.Exported | rpc_yqaty/codec.go:108-111 | the exported fields, and every exported field appears |
| Encoding.UnexportedIgnored | rpc_yqaty/codec.go:105-122 | a struct is written exactly as its exported fields alone |
| Encoding.StructText | rpc_yqaty/codec.go:105-122 | a struct is `"Name":value` for each exported field in declaration order, joined by `,`, in braces |
| Encoding.KeyQuoting | rpc_yqaty/codec.go:64-85 | every scalar map key is wrapped in exactly one pair of quotes, except the empty string key, written as a bare `null` |
| Encoding.MapText | rpc_yqaty/codec.go:59-85 | a non-nil map is its `key:value` texts in enumeration order, joined by `,`, in braces |
| Encoding.MapValueQuoting | codec.go:79-87 | the package copy writes map values as they are; the root copy adds quotes around every value that is not a string or a struct |
| Encoding.VariantsAgree | codec.go:20-145 | on values without quoted map values or pointers to nil pointers, both copies write the same text and return the same error |
| Encoding.ReferentAgrees | codec.go:100-111 | following the root copy's pointer chain gives what the package copy's one-level step gives |
| Encoding.IntegersAreDecimal | rpc_yqaty/codec.go:26-32 | an int's text reads back through `Atoi`; an unsigned value's text is the digits of its value |
| Encoding.MarshalScalarExamples | rpc_yqaty/codec_test.go:41-62 | `Marshal(1)` is `1` and `Marshal("ada")` is `"ada"` |
| Encoding.MarshalSliceExample | rpc_yqaty/codec_test.go:64-74 | `Marshal([]int{1,2,3})` is `[1,2,3]` |
| Encoding.MarshalStructExample | rpc_yqaty/codec_test.go:86-96 | a struct of two int fields is `{"A":1,"B":2}` |
| Encoding.MarshalNilMapExample | rpc_yqaty/codec_test.go:130-140 | a struct whose map field is nil is `{"Mp":null}` |
| Encoding.MapQuotingExample | codec.go:79-87 | `{1:2}` is `{"1":2}` in the package copy and `{"1":"2"}` in the root copy |
| Encoding.PointerChainExample | codec.go:100-111 | the root copy writes a pointer to a pointer as the referent and panics on a pointer to nil; the package copy writes `null` for the latter |
| Encoding.PartialOutputExample | rpc_yqaty/codec.go:124-125 | an unsupported kind stops the walk with "unsupported type", and what was written before stays in the buffer |
| Encoding.NoTypeTagExample | rpc_yqaty/codec.go:95-103 | an interface is written as its dynamic value with no type tag, so an int and a uint of the same value are written alike |
| Encoding.NoEscapeExample | rpc_yqaty/codec.go:87-93 | strings are not escaped, so two different slices are written alike |
| Encoding.EmptyKeyExample | rpc_yqaty/codec.go:87-93 | an empty string key is written as `null` |
| Encoding.UnexportedExample | rpc_yqaty/codec.go:105-122 | an unexported field is left out |
| Codec.Encoder.constructor | codec.go:12-14 | a fresh encoder of the given copy with an empty buffer |
| Codec.Encoder.JSONEncode | rpc_yqaty/codec.go:17-19 | appends exactly `Encoding.JSONEncode`'s text and returns its error |
| Codec.Encoder.Encode | rpc_yqaty/codec.go:21-127 | appends exactly `Encoding.Encode`'s text and returns its error |
| Codec.Encoder.EncodeChain | codec.go:100-111 | the pointer-following loop appends exactly the chain's referent's text |
| Codec.Encoder.EncodeList | rpc_yqaty/codec.go:42-57 | the element loop appends exactly the list's text |
| Codec.Encoder.EncodeMap | rpc_yqaty/codec.go:59-85 | the entry loop appends exactly the map's text |
| Codec.Encoder.EncodeEntry | rpc_yqaty/codec.go:64-83 | one entry: the key, `:`, the value |
| Codec.Encoder.EncodeQuoted | codec.go:79-87 | a key or value, between quotes when asked |
| Codec.Encoder.EncodeStruct | rpc_yqaty/codec.go:105-122 | the field loop appends exactly the struct's text |
| Codec.Marshal | rpc_yqaty/codec.go:393-397 | a fresh package encoder returns `Encoding.Marshal`'s text and error |
| Codec.Decoder.constructor | rpc_yqaty/codec.go:129-131 | a decoder over the tokens, at the first one |
| Codec.Decoder.Read | rpc_yqaty/codec.go:154-161 | the next token and one step on, or "decode failed" exactly at the end of the stream |
| Codec.Decoder.Consume | rpc_yqaty/codec.go:133-143 | one step on, and "decode failed" unless a token is left and it is the expected one |
| Codec.Decoder.JSONDecode | rpc_yqaty/codec.go:145-152 | the new position, target and error are those of `Decoding.JSONDecode` |
| Codec.Decoder.Decode | rpc_yqaty/codec.go:163-391 | the new position, target and error are those of `Decoding.Decode` |
| Codec.Decoder.DecodeScalar | rpc_yqaty/codec.go:168-238 | the int, uint, bool and string cases, as `Decoding.DecodeScalar` |
| Codec.Decoder.DecodeArray | rpc_yqaty/codec.go:240-264 | the array loop, as `Decoding.DecodeArray` |
| Codec.Decoder.DecodeSlice | rpc_yqaty/codec.go:266-294 | the slice loop, as `Decoding.DecodeSlice` |
| Codec.Decoder.DecodeMap | rpc_yqaty/codec.go:296-328 | the map loop, as `Decoding.DecodeMap` |
| Codec.Decoder.DecodeEntry | rpc_yqaty/codec.go:307-326 | one turn of the map loop, related to `MapLoop` and `MapNext` |
| Codec.Decoder.DecodeStruct | rpc_yqaty/codec.go:347-379 | the struct loop, as `Decoding.DecodeStruct` |
| Codec.Decoder.DecodeMember | rpc_yqaty/codec.go:358-377 | one turn of the struct loop, related to `StructLoop` and `StructNext` |
| Codec.UnMarshal | rpc_yqaty/codec.go:399-403 | a fresh package decoder leaves what `Decoding.UnMarshal` gives |
| Decoding.Consume | rpc_yqaty/codec.go:133-143 | no error exactly when a token is left and it is the expected one; otherwise "decode failed" |
| Decoding.Unquote | rpc_yqaty/codec.go:176-178 | a token that opens with a quote loses its first and last characters; any other token is kept; an empty token, or a lone quote, panics |
| Decoding.Inner | rpc_yqaty/codec.go:338 | a token of two characters or more loses exactly its first and last; a shorter one panics |
| Decoding.ToUint64 | rpc_yqaty/codec.go:186-202 | the int64 reinterpreted as a uint64, unchanged when it is not negative |
| Decoding.SetScalar | rpc_yqaty/codec.go:168-238 | a parsed scalar keeps its kind and needs an addressable target; a failure is a decode error |
| Decoding.Store | rpc_yqaty/codec.go:183 | a reflect setter succeeds exactly on an addressable value and stores that value |
| Decoding.Decode | rpc_yqaty/codec.go:163-391 | decode never moves back, advances when it succeeds, returns only decode errors, and keeps the target's kind and shape |
| Decoding.DecodeScalar | rpc_yqaty/codec.go:168-238 | a scalar takes exactly one token |
| Decoding.DecodeArray | rpc_yqaty/codec.go:240-264 | the array keeps its length |
| Decoding.ArrayLoop | rpc_yqaty/codec.go:251-263 | the element loop keeps the array's length |
| Decoding.DecodeSlice | rpc_yqaty/codec.go:266-294 | the slice keeps its element type, nil-ness and length |
| Decoding.SliceLoop | rpc_yqaty/codec.go:278-293 | the element loop never grows the slice |
| Decoding.SliceNext | rpc_yqaty/codec.go:285-292 | after an element only `,` or `]` lets the loop go on |
| Decoding.DecodeMap | rpc_yqaty/codec.go:296-328 | the map keeps its key and value types and nil-ness |
| Decoding.MapLoop | rpc_yqaty/codec.go:307-327 | one turn of the entry loop keeps the map's types |
| Decoding.MapValue | rpc_yqaty/codec.go:317-322 | the entry's value, stored (package copy) or decoded into the existing entry (root copy) |
| Decoding.MapNext | rpc_yqaty/codec.go:323-327 | after an entry one more token is read |
| Decoding.DecodeStruct | rpc_yqaty/codec.go:347-379 | the struct keeps its field names and export flags |
| Decoding.StructLoop | rpc_yqaty/codec.go:358-378 | one turn of the member loop keeps the field names |
| Decoding.StructNext | rpc_yqaty/codec.go:374-378 | after a member one more token is read |
| Decoding.JSONDecode | rpc_yqaty/codec.go:145-152 | anything but a non-nil pointer fails the pointer check with the position and target unchanged; otherwise decode runs through the pointer; never io.EOF |
| Decoding.AtEndOfStream | rpc_yqaty/codec.go:154-161 | at the end of the stream every kind that reads a token fails with "decode failed" and leaves the target untouched |
| Decoding.NothingAtEndOfStream | rpc_yqaty/codec.go:163-391 | no decode succeeds at the end of the stream |
| Decoding.NullLeavesTarget | rpc_yqaty/codec.go:173-175 | a `null` token consumes one token and leaves any scalar, slice, map or struct target, behind any chain of pointers and interfaces, unchanged |
| Decoding.QuotedScalar | rpc_yqaty/codec.go:176-178 | a quoted number or boolean parses as its unquoted text |
| Decoding.StringToken | rpc_yqaty/codec.go:330-339 | a string token loses its first and last characters, whatever they are |
| Decoding.NegativeUintWraps | rpc_yqaty/codec.go:186-202 | a quoted `-1` decodes into a uint as the largest uint64 |
| Decoding.LargeUintRefused | rpc_yqaty/codec.go:186-202 | a uint above the int64 maximum is refused with a range error |
| Decoding.IntToken | codec.go:187-204 | an int64's decimal text decodes into an addressable int |
| Decoding.QuotedIntToken | codec.go:187-204 | a quoted int64 text, such as a root map value, decodes into an int as well |
| Decoding.UintToken | codec.go:205-222 | a uint up to the int64 maximum decodes from its digits |
| Decoding.StrToken | codec.go:345-355 | a quoted string token decodes as its characters |
| Decoding.InterfaceScalarPanics | rpc_yqaty/codec.go:381-386 | a non-null scalar inside an interface is not addressable, so decode panics |
| Decoding.UnMarshalScalarExamples | rpc_yqaty/codec_test.go:144-166 | `1` into `new(int)` gives 1 and `"ada"` into `new(string)` gives `ada` |
| Decoding.UnMarshalNullMapExample | rpc_yqaty/codec_test.go:243-254 | `{"Mp":null}` leaves a nil map in place |
| Decoding.RootMapNeedsKeys | codec.go:313-343 | the root copy never adds a key: decoding into an empty map panics on the missing key |
| Decoding.SliceOverflowExample | codec.go:285-311 | a two-element list into a slice of length one panics on the missing index in both copies |
| Decoding.ArrayLengthExample | codec.go:259-283 | an array reads exactly as many elements as it has, then requires `]` |
| Decoding.UnknownFieldExample | rpc_yqaty/codec.go:368-373 | an unknown member's value is not read, which throws the member loop off |
| Decoding.SliceStep | codec.go:285-311 | a decoded element lands at index cnt of the existing slice |
| Decoding.SliceEnds | rpc_yqaty/codec.go:285-292 | after an element, `,` leads to index cnt + 1, `]` ends the slice, and any other token fails |
| Decoding.ArrayStep | codec.go:259-283 | element i is decoded in place, after a `,` unless it is the first |
| Decoding.ArrayEnds | codec.go:259-283 | after as many elements as the array has, only `]` succeeds |
| Decoding.MapKeyStep | rpc_yqaty/codec.go:308-316 | a fresh key, then `:`, then the value |
| Decoding.MapValueStep | rpc_yqaty/codec.go:317-322 | the package copy stores the decoded pair in the map |
| Decoding.RootMapValueStep | codec.go:313-343 | the root copy decodes the value into the key's existing entry |
| Decoding.RootMapMissingKey | codec.go:313-343 | the root copy panics on a key the map does not hold |
| Decoding.MapEnds | rpc_yqaty/codec.go:323-327 | after an entry `}` ends the map and any other token is skipped |
| Decoding.AppendFresh | rpc_yqaty/codec.go:322 | storing a missing key appends the entry |
| Decoding.StructStep | rpc_yqaty/codec.go:359-373 | a quoted name, `:`, and the exported field of that name decoded in place |
| Decoding.StructSkip | rpc_yqaty/codec.go:368-373 | a name with no exported field reads nothing more and changes no field |
| Decoding.StructEnds | rpc_yqaty/codec.go:374-378 | after a member `}` ends the struct and any other token is skipped |
| Decoding.MemberThenComma | rpc_yqaty/codec.go:358-378 | a decoded member followed by `,` leads to the next member |
| Decoding.MemberThenClose | rpc_yqaty/codec.go:358-378 | a decoded last member followed by `}` ends the struct with the field set |
| CodecTests.UnMarshalOpens | rpc_yqaty/codec.go:399-403 | `UnMarshal` into a pointer to a slice or a struct starts that loop after the bracket |
| CodecTests.IntThenComma | rpc_yqaty/codec.go:278-292 | an int element then `,` sets index cnt and moves to cnt + 1 |
| CodecTests.IntThenClose | rpc_yqaty/codec.go:278-292 | an int element then `]` sets index cnt and ends the slice |
| CodecTests.LastTwoInts | rpc_yqaty/codec.go:278-292 | the last two of three int elements are set |
| CodecTests.ThreeInts | rpc_yqaty/codec.go:266-294 | `[a,b,c]` into any slice of three ints gives exactly `[a b c]` |
| CodecTests.UnMarshalSliceTest | rpc_yqaty/codec_test.go:168-178 | `[1,2,3]` into `make([]int, 3)` gives `[1 2 3]` and consumes every token |
| CodecTests.SecondMember | rpc_yqaty/codec.go:358-378 | the member `"B":b` and the closing brace set field B |
| CodecTests.TwoMembers | rpc_yqaty/codec.go:347-379 | `{"A":a,"B":b}` into a struct of two int fields gives `{a b}` |
| CodecTests.UnMarshalStructTest | rpc_yqaty/codec_test.go:191-201 | `{"A":1,"B":2}` into a zero two-field struct gives `{1 2}` |
| RoundTrip.UnMarshalFilledStructTest | rpc_yqaty/codec_test.go:216-226 | `{"A":3,"B":"ada","C":5,"D":true}` into a `Struct3` already holding `{3 ada 5 true}` gives `{3 ada 5 true}`, after all 17 tokens |
| CodecTests.FreshIntEntry | rpc_yqaty/codec.go:307-322 | an entry whose key the map lacks is appended |
| CodecTests.EntryThenComma | rpc_yqaty/codec.go:307-327 | an appended entry then `,` leads to the next entry |
| CodecTests.EntryThenClose | rpc_yqaty/codec.go:307-327 | an appended last entry then `}` ends the map |
| RoundTrip.ScalarRoundTrip | rpc_yqaty/codec.go:168-238 | a non-negative int up to the int64 maximum, a uint up to that maximum, a bool, or a string the scanner keeps whole is one token, which decodes as that scalar into any target of its type, whatever it held (the empty string, written `null`, into an empty one) |
| RoundTrip.ElemsFrom | rpc_yqaty/codec.go:278-293 | from element cnt on, the slice loop sets every remaining element to the encoded one and ends after the `]` |
| RoundTrip.SliceRoundTrip | rpc_yqaty/codec.go:266-294 | a non-empty slice of such scalars decodes from its tokens as itself, into any non-nil slice of its element type and length whose elements are targets for the encoded ones |
| RoundTrip.FieldsFrom | rpc_yqaty/codec.go:358-378 | from member i on, the member loop sets every remaining field to the encoded value and ends after the `}` |
| RoundTrip.StructRoundTrip | rpc_yqaty/codec.go:347-379 | a struct of distinct exported scalar fields decodes from its tokens as itself, into any struct of the same exported field names whose values are targets for the encoded ones, zeroed or already filled |
| RoundTrip.EncodesAsTokens | rpc_yqaty/codec.go:21-127 | such a value encodes without error as the text its tokens make up |
| RoundTrip.BlankIsTarget | rpc_yqaty/codec.go:393-403 | the fresh target `reflect.New` allocates, a slice being made with the encoded length, is a target for the value |
| RoundTrip.FilledIsTarget | rpc_yqaty/codec_test.go:216-226 | a variable already holding the value is a target for it |
| RoundTrip.TargetDecodes | rpc_yqaty/codec.go:163-391 | each of the three kinds of value decodes from its tokens into any of its targets as itself, ending after its last token |
| RoundTrip.DecodeInverts | rpc_yqaty/codec.go:145-391 | decode into any target, directly or through a pointer as `JSONDecode` does, inverts encode on these values in both copies |
| RoundTrip.UnMarshalInverts | rpc_yqaty/codec.go:393-403 | `UnMarshal` of `Marshal`'s tokens, whatever follows them, into a pointer to any target, blank or filled, gives the value back |
| Tokens.TokensConcat | rpc_yqaty/codec.go:21-127 | the tokens of a value, run together, are exactly encode's text, and encode succeeds |
| Tokens.ReferentOfTarget | codec.go:100-111 | a pointer chain not ending in nil is written like its first target |
| Tokens.EntryConcat | rpc_yqaty/codec.go:64-83 | the quoting the map case adds is the quoting the tokens assume |
| Tokens.MemberConcat | rpc_yqaty/codec.go:116-119 | a member is its quoted name, a colon and its value |
| Protocol.ViewsOfValues | server.go:22-34 | the header and body values read back as the request, response and reply they were built from |
| Protocol.Frame | server.go:51-63 | a frame succeeds exactly when both encodes do, and is then the header's text, the body's text and one space; a header error comes first |
| Protocol.EncodeFrame | client.go:21-33 | a fresh buffer ends holding exactly the frame, and the frame's error is returned |
| Protocol.RequestHeaderText | codec.go:113-130 | a request header always encodes, as `{"MethodName":name,"Seq":n}` |
| Protocol.ResponseHeaderText | codec.go:113-130 | a response header always encodes, as `{"Seq":n,"Error":msg}` |
| Protocol.OneField | codec.go:113-130 | a one-field struct is its member in braces, or the field's error |
| Protocol.TwoScalarFields | codec.go:113-130 | a struct of two scalar fields is its two members in braces |
| Protocol.StrText | codec.go:92-98 | a string field is `null` when empty and quoted otherwise |
| Protocol.ErrorBodyText | codec.go:132-140 | `Data{nil}` encodes as `{"Reply":null}` |
| Protocol.ReplyBodyText | codec.go:100-140 | a reply body is the reply's referent under `Reply`, or its error |
| Protocol.ErrorResponseFrame | server.go:128 | an error response is always written, as the header, `{"Reply":null}` and a space |
| Protocol.RequestFrameText | client.go:21-33 | a request frame fails exactly when the arguments do not encode, and is otherwise the header, the arguments and a space |
| Protocol.ReplyFrameText | server.go:132 | a reply frame fails exactly when the reply's referent does not encode |
| Protocol.StrTokDecodes | codec.go:345-355 | a string field's token decodes into the string it was written from |
| Protocol.PointerToStruct | codec.go:356-361 | a pointer to a struct is decoded through to the struct loop |
| Protocol.RequestRoundTrip | server.go:42-44 | the server reads back, from exactly nine tokens, the request header the client wrote, when the sequence number fits an int64 and the method name holds no quote, backslash or newline |
| Protocol.ResponseRoundTrip | client.go:35-37 | the client reads back, from exactly nine tokens, the response header the server wrote, when the sequence number fits an int64 and the error text holds no quote, backslash or newline |
| Protocol.NumErrorNotPlain | server.go:161-164 | the text of a strconv syntax or range error, which the server sends back for arguments that do not parse, holds a quote, so its header is not read back |
| Protocol.HeaderToksText | client.go:21-33 | the tokens of a header, run together, are the header's text |
| RpcServer.StripPointers | server.go:74-76 | the loop ends on a type that is not a pointer |
| RpcServer.IsExported | server.go:77 | a name is exported exactly when its first character is a capital letter |
| RpcServer.StripPointersExactly | server.go:74-76 | stripping removes exactly the pointer levels above a base type, however many there are |
| RpcServer.IsExportedOrBulitinType | server.go:73-78 | true exactly when the type, once every pointer level is stripped, has an exported name or no package path |
| RpcServer.ExportedOrBuiltinThroughPointers | server.go:73-78 | pointer levels make no difference; the base type decides |
| RpcServer.ZeroOf | server.go:118 | `reflect.New(t).Elem()` of any type is a zero value |
| RpcServer.CheckSignature | server.go:82-99 | no error exactly for a function of three parameters whose third is an exported or predeclared pointer type, with one `error` result |
| RpcServer.FirstFailureWins | server.go:82-99 | each of the six messages is returned exactly when its check fails and every check before it passed |
| RpcServer.MessagesDistinct | server.go:80-106 | the seven `Register` messages and the unknown-name message are pairwise different |
| RpcServer.RegisterError | server.go:80-106 | `Register` returns no error exactly for a callable function under a name not yet taken |
| RpcServer.Registered | server.go:100-104 | `Register` keeps every entry and adds at most the new name |
| RpcServer.RefusedLeavesMap | server.go:100-103 | a refused registration, a duplicate name among them, leaves the registry unchanged; a valid function under a taken name gets "the name has been registered" |
| RpcServer.RegisterAddsOne | server.go:104 | a successful registration adds exactly one entry, under the new name, holding the function's type, its argument type `In(1)` and its reply type `In(2)`, and keeps every other entry |
| RpcServer.RegisterKeepsWellRegistered | server.go:80-106 | every entry of the registry describes a function `Register` accepts |
| RpcServer.Server.constructor | server.go:194-198 | `GetServer()` makes an empty registry |
| RpcServer.Server.Register | server.go:80-106 | the error and the new registry are those of `RegisterError` and `Registered` |
| RpcServer.ServerCodec.constructor | server.go:174-176 | `InitCodec` makes a codec over a fresh connection at its first token, with nothing written yet |
| RpcServer.ServerCodec.ReadRequestHeader | server.go:42-44 | decodes a zero `Request` through its pointer |
| RpcServer.ServerCodec.ReadRequestBody | server.go:46-49 | `JSONDecode` of the given data |
| RpcServer.ServerCodec.WirteResponse | server.go:51-63 | the buffer holds the response frame, its error is returned, and the frame reaches the connection only when it encoded |
| RpcServer.ServerCodec.Close | server.go:65-67 | the connection is closed and nothing more is written |
| RpcServer.ServeStep | server.go:139-168 | one turn never moves back and never leaves the stream; a panic of the header or argument decode is an `Abort`, not an answer |
| RpcServer.Turn | server.go:139-168 | one turn never moves back, writes at most one frame, and writes none when it ends the process |
| RpcServer.Serve | server.go:138-169 | n turns never move back and write at most n frames |
| RpcServer.ServeStops | server.go:138-169 | once a turn has ended the process, more turns change nothing |
| RpcServer.RunStops | server.go:138-169 | once any loop's turn has ended the process, more turns change nothing |
| RpcServer.PanicEndsServing | server.go:138-169 | a turn that panics is the last: nothing is written and the loop stops where the turn stopped |
| RpcServer.ReceiverPanics | server.go:119-121 | a registered function whose first parameter is not a pointer type panics with nothing written |
| RpcServer.EmptyHeaderPanics | codec.go:372-379 | a header `{` `}` makes the root decoder slice `}` as a member name, which panics and ends the server |
| RpcServer.Server.SendResponse | server.go:108-112 | the response frame is written once, when it encodes, and `panicked` says that the encoder panicked |
| RpcServer.Server.DealRequest | server.go:114-133 | a registered function whose first parameter is not a pointer type panics before anything is written; otherwise its error becomes an error response with `Data{nil}` and its reply is sent without error, both echoing the request's number; `panicked` says which turns end the process |
| RpcServer.Server.ServeOne | server.go:139-168 | one turn moves the decoder as `ServeStep` says, writes the frame its answer makes, and reports whether the process lives on, as `Turn` |
| RpcServer.Server.ServeNext | server.go:138-169 | after i turns that let the process live, one more turn gives the position, output and liveness of i + 1 turns |
| RpcServer.Server.ServeConn | server.go:135-172 | n turns of the loop, or fewer when one panics, leave the position and the output of `Serve`, and `panicked` exactly when the process ended |
| RpcServer.ServeIsRun | server.go:138-169 | the turns of `ServeConn` are the loop run of its turn function |
| RpcServer.ServeOneMore | server.go:138-169 | n + 1 turns are n turns and then one more |
| RpcServer.RunOneMore | server.go:138-169 | n + 1 turns of any loop are n turns and one more |
| RpcServer.RunAtFixedPoint | server.go:138-169 | a turn that stays put, writes one frame and lets the process live writes that frame on every turn |
| RpcServer.NoEndOfFile | server.go:142 | neither the header read nor the body read can return io.EOF, so neither `break` is taken |
| RpcServer.EndOfStream | server.go:141-148 | at the end of the stream the header fails with "decode failed", the nil body read consumes nothing, and the answer carries sequence number 0 |
| RpcServer.ServesForever | server.go:138-169 | once the stream has ended, every turn writes the same error frame without moving and the process never stops |
| RpcServer.UnknownName | server.go:150-155 | an unregistered name is answered with "the name has not been register", and no argument token is read |
| RpcServer.AnswersEcho | server.go:139-168 | every answer echoes the header's sequence number; every error answer, carrying `Data{nil}`, is written and the process lives on; a decoder panic writes nothing and ends the loop |
| RpcServer.WellFormedRequest | server.go:156-168 | a request the client wrote for a registered function whose arguments decode is dispatched with those arguments, when its method name holds no quote, backslash or newline |
| RpcClient.NextSeq | client.go:140 | `seq++` on a uint64: one more, or 0 after the largest value |
| RpcClient.NextSeqFresh | client.go:140-143 | below the largest value the new number is not on the table, and every key stays at or below the counter |
| RpcClient.WrapReusesZero | client.go:140 | once the counter wraps, the number it gives may already be on the table |
| RpcClient.Query.constructor | client.go:149 | a fresh query with no error, not delivered |
| RpcClient.Query.Done | client.go:52-58 | the query is delivered and nothing else changes |
| RpcClient.ClientCodec.constructor | client.go:77-81 | `InitCodec` makes a codec over a fresh connection at its first token |
| RpcClient.ClientCodec.WriteRequest | client.go:21-33 | the buffer holds the request frame, its error is returned, and the frame reaches the connection only when it encoded |
| RpcClient.ClientCodec.ReadResponseHeader | client.go:35-37 | decodes a zero `Response` through its pointer |
| RpcClient.ClientCodec.ReadResponseBody | client.go:39-41 | `JSONDecode` of the given data |
| RpcClient.ClientCodec.Close | client.go:178 | the connection is closed and nothing more is written |
| RpcClient.ListenStep | client.go:86-112 | a turn never leaves the stream and moves forward unless it stops the loop; a decoder panic is `Aborted`, any other read error `Stopped` |
| RpcClient.Stop | client.go:87-90 | a turn stops the loop exactly when its header read failed or panicked, with that error |
| RpcClient.EmptyResponseHeaderPanics | codec.go:372-379 | a response header `{` `}` panics in the root decoder, which ends the client |
| RpcClient.NilArgsPanic | codec.go:16-22 | a request with nil arguments panics in the encoder |
| RpcClient.TakesPending | client.go:91-94 | a turn takes off the table only a number that was on it |
| RpcClient.BodyLeftUnread | client.go:95-104 | for an answer to no pending call, or one carrying an error, the nil body read consumes no token; a refused call gets exactly the header's error text |
| RpcClient.ListenAtEnd | client.go:87-90 | at the end of the stream the header fails with "decode failed" and the loop ends |
| RpcClient.ServerErrorHeard | client.go:99-104 | an error answer the server wrote for a pending call refuses that call with the server's text, after nine tokens, when that text holds no quote, backslash or newline |
| RpcClient.Client.constructor | client.go:181-185 | `GetClient()`: an empty table, counter 0, not closing |
| RpcClient.Client.SendRequest | client.go:68-75 | the request frame is written once, when it encodes |
| RpcClient.Client.Deal | client.go:133-146 | a closing client refuses the call with "the connection is shut down" and changes nothing else; an open one numbers it with the next number, puts it on the table under that number and sends its request; a fresh number stays fresh; `panicked` exactly when the request frame panics, as nil arguments do |
| RpcClient.Client.ListenOnce | client.go:86-112 | one turn moves as `ListenStep` says, returns the error that stops the loop as `Stop` gives it, takes exactly its number off the table, sets the refused call's error or the answered call's reply, delivers it, and leaves every other query alone |
| RpcClient.Client.FailPending | client.go:114-120 | the client is closing and every call still on the table gets the error and is delivered |
| RpcClient.Client.Listen | client.go:83-121 | the loop ends with the table shrunk; unless a panic ended the process, the client is closing and every call still on it failed with the error that ended the loop |
| RpcClient.Client.Close | client.go:171-179 | a closing client answers "the connect is shut down"; otherwise it becomes closing and shuts the connection; the flag is never reset |
| RpcClient.Client.Call | client.go:148-169 | a closing client gives "the connection is shut down"; an open one takes its number off the table at the first tick and gives "can not receive response"; `panicked` exactly when its request frame panics |

## Left out

- Networking: `net.Listen`, `Accept`, `net.Dial` and `Dial`. A connection is a token sequence in and a list of written frames out. Errors from `conn.Write` and `conn.Close` are not modelled, so `WriteRequest` never returns a write error.
- Goroutines, `sync.Mutex` and `sync.WaitGroup`. Every operation runs alone, one after another. This leaves out two things: `Deal` on a closing client, which returns with the mutex still held, and `Deal` setting `Error` only after `done()` has delivered the query, which is a race.
- The `Done` channel is a `delivered` flag. A second `done()` is discarded the way the full channel discards it.
- `time.NewTicker` and `Call`'s `select`: the tick always comes first, because `Listen` cannot run during the wait in a sequential model.
- RpcClient.Client.Call: an open client therefore always times out. The branch where the query is already done is reachable only on a closing client. The re-issue after the first tick is unreachable (`cnt` is 1 when tested), and the model keeps that test with a dead branch.
- Floats: `%f` and `strconv.ParseFloat` have no value kind.
- `text/scanner`: the decoder works on the token sequence. `Tokens.Toks` states how the scanner splits encode's output for the values it keeps whole.
- Integer widths: every int kind is an int64 and every uint kind a uint64. `reflect.SetInt` truncation into narrower kinds is not modelled.
- Embedded struct fields: `FieldByName` also finds the promoted fields of an embedded struct. The model's structs are flat; only the sample type `Struct3` at codec.go:429-431 embeds one.
- Decoding.Decode: the round trip decode(encode(v)) == v is proved (`RoundTrip.DecodeInverts`) for scalars, non-empty slices of scalars and structs of distinct exported scalar fields, in both copies. It is not stated for these, some of which do not come back in the source:
  - arrays, maps, pointers, interfaces and nested slices or structs;
  - negative ints, whose sign the scanner splits off, and uints above the int64 maximum, which `Atoi` refuses;
  - strings holding a quote, a backslash or a newline, which the scanner does not keep whole;
  - empty and nil slices, and empty structs;
  - unexported fields, which encode leaves out, and two fields of one name;
  - a target of another length or other field names, a nil slice target, and a target holding a non-empty string where the encoded string is empty, which decodes from `null` and so leaves the target as it was.
- CodecTests.FreshIntEntry: the map test of rpc_yqaty/codec_test.go:203-214 is covered one entry at a time (`EntryThenComma`, `EntryThenClose`); the chain of its three entries is not assembled.
- Decoding `[]` into a slice: it tries to parse `]` as an element. The model has this behaviour, but no lemma is stated about it.
- RpcServer.RegisterError: `Register(name, nil)` panics in the source, because server.go:82 calls `Kind()` on the nil `reflect.Type` that `reflect.TypeOf(nil)` gives. `RType` has no nil type, so the model has no such call.
- Calling a registered function through `reflect.Value.Call`: a `Handler` function parameter gives its result, and `MethodType.Value` is not stored.
- RpcServer.Server.DealRequest: `Method.In(0).Elem()` panics unless the first parameter is a pointer, array, channel, map or slice type, and for the four that are not pointers `fun.Call` then panics, because the receiver it is given is a pointer. The model has one test for both (`ReceiverOk`, a pointer type) and one panic text for both.
- RpcServer.ServeStep: a panic of the decoder, of the receiver or of the encoder ends the whole process, so the turn writes nothing and `Serve` stops. The stack trace the runtime prints is not modelled, and nothing recovers the panic.
- RpcClient.ListenStep: a panic of the response decoder ends the whole process; `Listen` then returns it without failing the pending calls, and no caller sees it. A panic in `Deal`'s request frame (`RpcClient.NilArgsPanic`) is reported by `Deal` and `Call` as `panicked`.
- Errors.QuoteChar: `strconv.Quote` also escapes non-printable characters above ASCII and invalid UTF-8; the model keeps every character above DEL.
- `fmt.Println` and `log.Println` output is left out.
- Aliasing: decode returns the updated target, and the caller's reply pointer is not updated in place. `Listen` stores the decoded reply in the query instead of through the caller's pointer.
- RpcServer.IsExported: `token.IsExported` accepts any Unicode upper-case letter; the model accepts ASCII `A` to `Z` only.
- RpcServer.Server.ServeConn: the source loop never exits (`RpcServer.NoEndOfFile`), so the model runs a given number n of turns. `wg.Wait()` and `codec.Close()` after the loop are never reached.
- RpcClient.Client.Listen: its contract does not relate the whole run to the tokens; each turn is stated exactly by `ListenOnce`. One consequence is stated only per turn: a query removed before a failed body read is never delivered, because the exit loop only sees the calls still on the table.
- GetServer, GetClient and the two InitCodec functions are constructors of the classes.
- The debug `main` and the sample structs at codec.go:413-457 are left out.

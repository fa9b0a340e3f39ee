/**
 * The values the codec walks, one constructor per reflect kind it handles.
 * Every integer kind is modelled as 64 bits wide; floats are not modelled.
 */
module GoValues {
  import opened Wrappers

  /** A static type, as far as `reflect.New(t).Elem()` needs it to build a fresh value. */
  datatype Type =
    | TInt
    | TUint
    | TBool
    | TString
    | TSlice(elem: Type)
    | TArray(len: nat, elem: Type)
    | TMap(key: Type, val: Type)
    | TPtr(elem: Type)
    | TIface
    | TStruct(fields: seq<FieldType>)
    | TUnsupported(kind: string)

  datatype FieldType = FieldType(name: string, exported: bool, typ: Type)

  /**
   * A run-time value.  Slices and maps carry their element types (decoding
   * allocates fresh elements of them) and whether they are nil; a map's
   * enumeration order is the order of `entries`; `Iface` is a value whose
   * static type is an interface; `Unsupported` is any other kind (func,
   * chan, complex, ...), with its zero-ness.
   */
  datatype Value =
    | Int(i: int)
    | Uint(n: nat)
    | Bool(b: bool)
    | Str(s: string)
    | Slice(elemType: Type, isNil: bool, elems: seq<Value>)
    | Array(elems: seq<Value>)
    | Map(keyType: Type, valType: Type, isNil: bool, entries: seq<(Value, Value)>)
    | Ptr(target: Option<Value>)
    | Iface(dynamic: Option<Value>)
    | Struct(fields: seq<Field>)
    | Unsupported(kind: string, zero: bool)

  /** A struct field; an unexported field is one reflect will not let the codec touch. */
  datatype Field = Field(name: string, exported: bool, value: Value)

  /** `reflect.Value.IsZero`. */
  predicate IsZero(v: Value)
  {
    match v
    case Int(i) => i == 0
    case Uint(n) => n == 0
    case Bool(b) => !b
    case Str(s) => s == ""
    case Slice(_, isNil, _) => isNil
    case Array(es) => forall k :: 0 <= k < |es| ==> IsZero(es[k])
    case Map(_, _, isNil, _) => isNil
    case Ptr(p) => p.None?
    case Iface(d) => d.None?
    case Struct(fs) => forall k :: 0 <= k < |fs| ==> IsZero(fs[k].value)
    case Unsupported(_, zero) => zero
  }

  /** The zero value of a type, as `reflect.New(t).Elem()` yields it. */
  function Zero(t: Type): (v: Value)
    ensures IsZero(v)
  {
    match t
    case TInt => Int(0)
    case TUint => Uint(0)
    case TBool => Bool(false)
    case TString => Str("")
    case TSlice(e) => Slice(e, true, [])
    case TArray(n, e) => Array(seq(n, _ => Zero(e)))
    case TMap(k, e) => Map(k, e, true, [])
    case TPtr(_) => Ptr(None)
    case TIface => Iface(None)
    case TStruct(fts) =>
      Struct(seq(|fts|, k requires 0 <= k < |fts| => Field(fts[k].name, fts[k].exported, Zero(fts[k].typ))))
    case TUnsupported(kind) => Unsupported(kind, true)
  }

  /** `reflect.Type.FieldByName` on a struct without embedded fields: the first field so named. */
  function FieldIndex(fs: seq<Field>, name: string): (r: Option<nat>)
    ensures r.Some? ==> r.value < |fs| && fs[r.value].name == name
    ensures r.Some? ==> forall k :: 0 <= k < r.value ==> fs[k].name != name
    ensures r.None? ==> forall k :: 0 <= k < |fs| ==> fs[k].name != name
  {
    if fs == [] then None
    else if fs[0].name == name then Some(0)
    else match FieldIndex(fs[1..], name)
      case None => None
      case Some(k) => Some(k + 1)
  }

  /** The position of a key in a map's entries. */
  function KeyIndex(entries: seq<(Value, Value)>, key: Value): (r: Option<nat>)
    ensures r.Some? ==> r.value < |entries| && entries[r.value].0 == key
    ensures r.Some? ==> forall k :: 0 <= k < r.value ==> entries[k].0 != key
    ensures r.None? ==> forall k :: 0 <= k < |entries| ==> entries[k].0 != key
  {
    if entries == [] then None
    else if entries[0].0 == key then Some(0)
    else match KeyIndex(entries[1..], key)
      case None => None
      case Some(k) => Some(k + 1)
  }

  function Keys(entries: seq<(Value, Value)>): seq<Value>
  {
    seq(|entries|, k requires 0 <= k < |entries| => entries[k].0)
  }

  /** `reflect.Value.SetMapIndex` on a non-nil map: replace the key's value, or add the key last. */
  function SetEntry(entries: seq<(Value, Value)>, key: Value, val: Value): (r: seq<(Value, Value)>)
    ensures key in Keys(r)
    ensures forall k :: k in Keys(entries) ==> k in Keys(r)
    ensures forall k :: k in Keys(r) ==> k in Keys(entries) || k == key
    ensures KeyIndex(r, key).Some? && r[KeyIndex(r, key).value] == (key, val)
    ensures |r| == |entries| || |r| == |entries| + 1
    ensures forall j :: 0 <= j < |entries| && entries[j].0 != key ==> r[j] == entries[j]
  {
    match KeyIndex(entries, key)
    case Some(k) =>
      assert Keys(entries[k := (key, val)]) == Keys(entries);
      assert Keys(entries)[k] == key;
      entries[k := (key, val)]
    case None =>
      assert Keys(entries + [(key, val)]) == Keys(entries) + [key];
      entries + [(key, val)]
  }
}

/**
 Values on the wire. `Encode` is what the writers produce, `Copy` is what `copy` and `skip` do with
 a stream: how many bytes a value takes and which bytes come out.
 */
module Wire {
  import opened Bytes
  import opened ByteCode
  import opened Schemas

  /**
   A value of some schema. Numbers and strings are bytes; the items of containers are in stream
   order, those of a map with each key before its value; an optional has no or one item.
   */
  datatype Value =
    | Raw(bytes: seq<Byte>)
    | Items(items: seq<Value>)
    | Fields(block: seq<Byte>, items: seq<Value>)
    | Pixels(dims: seq<nat>, items: seq<Value>)
    | Dynamic(code: seq<Cell>, value: Value)

  const MAX_SIZE: nat := 0xFFFF_FFFF

  // ---------------------------------------------------------------------------------------------
  // Fixed sizes

  /** The size in bytes of every value of s, or 0 if the code does not fix one. */
  function FixedSize(s: Schema): nat
    decreases s, 1
  {
    match s
    case Prim(kind) => Width(kind)
    case Arr(size, elem) => size * FixedSize(elem)
    case Tup(elems) => FixedSum(elems)
    case Struct(_, total, equivalent, _) => if equivalent then total else 0
    case _ => 0
  }

  function FixedSum(elems: seq<Schema>): nat
    decreases elems, 0
  {
    if elems == [] || FixedSize(elems[0]) == 0 then 0
    else if |elems| == 1 then FixedSize(elems[0])
    else if FixedSum(elems[1..]) == 0 then 0
    else FixedSize(elems[0]) + FixedSum(elems[1..])
  }

  /** `get_value_size` on a code. */
  function ValueSize(code: seq<Cell>, types: TypeInfo, pos: nat): nat
    requires WellFormed(code, types, pos)
    decreases |code| - pos, 1, 0
  {
    var c := code[pos];
    var children := Fetch(code, types, pos).value.children;
    if Width(c) > 0 then Width(c)
    else if c == CODE_ARRAY then
      assert WellFormed(code, types, children[0]);
      code[pos + 1] * ValueSize(code, types, children[0])
    else if c == CODE_TUPLE then TupleSize(code, types, pos, children)
    else if c == CODE_STRUCT then
      var inner := types.depends[code[pos + 1]];
      if inner.TypeInfo? && inner.equivalent then inner.total else 0
    else 0
  }

  /** The loop over the elements of a tuple, which gives up at the first one without a fixed size. */
  function TupleSize(code: seq<Cell>, types: TypeInfo, pos: nat, children: seq<nat>): nat
    requires pos < |code|
    requires forall k: nat :: k < |children| ==> pos < children[k] && WellFormed(code, types, children[k])
    decreases |code| - pos, 0, |children|
  {
    if children == [] || ValueSize(code, types, children[0]) == 0 then 0
    else if |children| == 1 then ValueSize(code, types, children[0])
    else if TupleSize(code, types, pos, children[1..]) == 0 then 0
    else ValueSize(code, types, children[0]) + TupleSize(code, types, pos, children[1..])
  }

  /** The size read off the code is that of its schema. */
  lemma {:induction false} ValueSizeIsFixedSize(code: seq<Cell>, types: TypeInfo, pos: nat)
    requires WellFormed(code, types, pos) && Compiled(types)
    ensures ValueSize(code, types, pos) == FixedSize(Decode(code, types, pos))
    decreases |code| - pos, 1, 0
  {
    hide Decode, DecodeAll, ValueSize, TupleSize, Fetch, FixedSum;
    if code[pos] == CODE_ARRAY {
      DecodeElement(code, types, pos);
      ArrayValueSize(code, types, pos);
      hide WellFormed;
      ValueSizeIsFixedSize(code, types, pos + 2);
    } else if code[pos] == CODE_TUPLE {
      DecodeTupleCode(code, types, pos);
      TupleValueSize(code, types, pos);
      TupleSizeIsFixedSum(code, types, pos, TupleChildren(code, pos));
    } else {
      OtherSize(code, types, pos);
    }
  }

  lemma ArrayValueSize(code: seq<Cell>, types: TypeInfo, pos: nat)
    requires WellFormed(code, types, pos) && code[pos] == CODE_ARRAY
    ensures pos + 2 < |code| && WellFormed(code, types, pos + 2)
    ensures ValueSize(code, types, pos) == code[pos + 1] * ValueSize(code, types, pos + 2)
  {
    ElementCode(code, types, pos);
  }

  lemma TupleValueSize(code: seq<Cell>, types: TypeInfo, pos: nat)
    requires WellFormed(code, types, pos) && code[pos] == CODE_TUPLE
    ensures pos + 1 < |code| && pos + 2 + code[pos + 1] <= |code|
    ensures forall k: nat :: k < |TupleChildren(code, pos)| ==>
              pos < TupleChildren(code, pos)[k] && WellFormed(code, types, TupleChildren(code, pos)[k])
    ensures ValueSize(code, types, pos) == TupleSize(code, types, pos, TupleChildren(code, pos))
  {
    hide TupleSize;
    assert Fetch(code, types, pos).value.children == TupleChildren(code, pos);
  }

  lemma {:induction false} OtherSize(code: seq<Cell>, types: TypeInfo, pos: nat)
    requires WellFormed(code, types, pos) && Compiled(types)
    requires code[pos] != CODE_ARRAY && code[pos] != CODE_TUPLE
    ensures ValueSize(code, types, pos) == FixedSize(Decode(code, types, pos))
  {
    hide Decode;
    if HasElement(code[pos]) {
      DecodeElement(code, types, pos);
    } else if code[pos] == CODE_MAP {
      DecodeMap(code, types, pos);
    } else if code[pos] == CODE_STRUCT {
      StructCode(code, types, pos);
    } else if IsComposite(code[pos]) {
      DecodeSimple(code, types, pos);
    } else {
      DecodeNumber(code, types, pos);
    }
  }

  lemma {:induction false} TupleSizeIsFixedSum(
      code: seq<Cell>, types: TypeInfo, pos: nat, children: seq<nat>)
    requires pos < |code| && Compiled(types)
    requires forall k: nat :: k < |children| ==> pos < children[k] && WellFormed(code, types, children[k])
    ensures TupleSize(code, types, pos, children) == FixedSum(DecodeAll(code, types, pos, children))
    decreases |code| - pos, 0, |children|
  {
    if children != [] {
      ValueSizeIsFixedSize(code, types, children[0]);
      TupleSizeIsFixedSum(code, types, pos, children[1..]);
    }
  }

  // ---------------------------------------------------------------------------------------------
  // Values and their encoding: a head, then the items

  function ItemsOf(v: Value): (items: seq<Value>)
    ensures forall i: nat :: i < |items| ==> items[i] < v
  {
    match v
    case Raw(_) => []
    case Items(items) => items
    case Fields(_, items) => items
    case Pixels(_, items) => items
    case Dynamic(_, value) => [value]
  }

  /** The schemas of the items; they repeat if there are more items. */
  function Parts(s: Schema, v: Value): seq<Schema> {
    match s
    case Arr(_, elem) => [elem]
    case Lst(elem) => [elem]
    case Opt(elem) => [elem]
    case Assoc(key, value) => [key, value]
    case Mat(_, elem) => [elem]
    case Img(_, elem) => [elem]
    case Tup(elems) => elems
    case Struct(_, _, _, ext) => ext
    case Obj => [Str, Dyn]
    case Dyn => if v.Dynamic? && WellFormed(v.code, NoType, 0) then [Decode(v.code, NoType, 0)] else [Foreign]
    case _ => []
  }

  function Part(parts: seq<Schema>, i: nat): Schema {
    if parts == [] then Foreign
    else if |parts| == 1 then parts[0]
    else if i < |parts| then parts[i]
    else parts[i % |parts|]
  }

  function Product(dims: seq<nat>): nat {
    if dims == [] then 1 else dims[0] * Product(dims[1..])
  }

  predicate ValidDynamicCode(code: seq<Cell>) {
    1 <= |code| <= MAX_BYTE_CODE_SIZE && Validate(code, NoType, 0, 0).Ok?
  }

  /** The value has as many items as the schema wants and a head that can be written. */
  predicate Fits(s: Schema, v: Value) {
    match s
    case Null => v == Raw([])
    case Prim(kind) => v.Raw? && |v.bytes| == Width(kind)
    case Str => v.Raw? && |v.bytes| <= MAX_SIZE
    case Arr(size, _) => v.Items? && |v.items| == size
    case Lst(_) => v.Items? && |v.items| <= MAX_SIZE
    case Opt(_) => v.Items? && |v.items| <= 1
    case Assoc(_, _) => v.Items? && |v.items| % 2 == 0 && |v.items| / 2 <= MAX_SIZE
    case Obj => v.Items? && |v.items| % 2 == 0 && |v.items| / 2 <= MAX_SIZE
    case Mat(dims, _) => v.Items? && dims != [] && |v.items| == Product(dims)
    case Img(rank, _) =>
      && v.Pixels? && |v.dims| == rank && rank > 0 && |v.items| == Product(v.dims)
      && forall d :: d in v.dims ==> d <= MAX_SIZE
    case Tup(elems) => v.Items? && |v.items| == |elems|
    case Struct(_, total, _, ext) => v.Fields? && |v.block| == total && |v.items| == |ext|
    case Dyn => v.Dynamic? && ValidDynamicCode(v.code)
    case _ => false
  }

  predicate HasType(s: Schema, v: Value)
    decreases v
  {
    && Fits(s, v)
    && forall i: nat :: i < |ItemsOf(v)| ==> HasType(Part(Parts(s, v), i), ItemsOf(v)[i])
  }

  function DimBytes(dims: seq<nat>): (b: seq<Byte>)
    ensures |b| == 4 * |dims|
  {
    if dims == [] then [] else LittleEndian(dims[0], 4) + DimBytes(dims[1..])
  }

  function CellBytes(code: seq<Cell>): (b: seq<Byte>)
    ensures |b| == 2 * |code|
  {
    if code == [] then [] else LittleEndian(code[0], 2) + CellBytes(code[1..])
  }

  function HeadOf(s: Schema, v: Value): seq<Byte>
    requires Fits(s, v)
  {
    match s
    case Prim(_) => v.bytes
    case Str => LittleEndian(|v.bytes|, 4) + v.bytes
    case Lst(_) => LittleEndian(|v.items|, 4)
    case Opt(_) => [|v.items|]
    case Assoc(_, _) => LittleEndian(|v.items| / 2, 4)
    case Obj => LittleEndian(|v.items| / 2, 4)
    case Img(_, _) => DimBytes(v.dims)
    case Struct(_, _, _, _) => v.block
    case Dyn => LittleEndian(|v.code|, 2) + CellBytes(v.code)
    case _ => []
  }

  /** The bytes of a value. */
  function Encode(s: Schema, v: Value): seq<Byte>
    requires HasType(s, v)
    decreases v, 1
  {
    HeadOf(s, v) + EncodeItems(Parts(s, v), v, 0)
  }

  /** The bytes of the items of v from the i-th on. */
  function EncodeItems(parts: seq<Schema>, v: Value, i: nat): seq<Byte>
    requires i <= |ItemsOf(v)|
    requires forall k: nat :: i <= k < |ItemsOf(v)| ==> HasType(Part(parts, k), ItemsOf(v)[k])
    decreases v, 0, |ItemsOf(v)| - i
  {
    if i == |ItemsOf(v)| then []
    else Encode(Part(parts, i), ItemsOf(v)[i]) + EncodeItems(parts, v, i + 1)
  }

  /** A schema of fixed size k gives every value exactly k bytes. */
  lemma {:induction false} EncodingOfFixedSize(s: Schema, v: Value)
    requires HasType(s, v) && FixedSize(s) > 0 && Sound(s)
    ensures |Encode(s, v)| == FixedSize(s)
    decreases v, 1
  {
    match s
    case Arr(size, elem) =>
      RunOfFixedSize(elem, v, 0);
    case Tup(elems) =>
      TupleOfFixedSize(elems, v, 0);
      assert elems[0..] == elems;
    case _ =>
  }

  lemma Times(n: nat, k: nat)
    requires n > 0
    ensures n * k == k + (n - 1) * k
  {
  }

  lemma {:induction false} RunOfFixedSize(elem: Schema, v: Value, i: nat)
    requires FixedSize(elem) > 0 && Sound(elem) && i <= |ItemsOf(v)|
    requires forall k: nat :: i <= k < |ItemsOf(v)| ==> HasType(Part([elem], k), ItemsOf(v)[k])
    ensures |EncodeItems([elem], v, i)| == (|ItemsOf(v)| - i) * FixedSize(elem)
    decreases v, 0, |ItemsOf(v)| - i
  {
    hide Encode, HasType, FixedSize, Sound;
    if i < |ItemsOf(v)| {
      EncodingOfFixedSize(elem, ItemsOf(v)[i]);
      RunOfFixedSize(elem, v, i + 1);
      Times(|ItemsOf(v)| - i, FixedSize(elem));
    }
  }

  lemma {:induction false} TupleOfFixedSize(elems: seq<Schema>, v: Value, i: nat)
    requires |elems| == |ItemsOf(v)| && i < |elems| && FixedSum(elems[i..]) > 0
    requires forall e :: e in elems ==> Sound(e)
    requires forall k: nat :: i <= k < |ItemsOf(v)| ==> HasType(Part(elems, k), ItemsOf(v)[k])
    ensures |EncodeItems(elems, v, i)| == FixedSum(elems[i..])
    decreases v, 0, |ItemsOf(v)| - i
  {
    assert elems[i..][0] == elems[i] && elems[i..][1..] == elems[i + 1..];
    EncodingOfFixedSize(elems[i], ItemsOf(v)[i]);
    if i + 1 < |elems| {
      TupleOfFixedSize(elems, v, i + 1);
    }
  }
}

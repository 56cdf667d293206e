/**
 A byte code read as a tree. `Decode` follows the relative offsets of a well formed code,
 `Flatten` lays a tree out in order, and the two undo each other.
 */
module Schemas {
  import opened Bytes
  import opened ByteCode

  datatype Schema =
    | Null | Str | Dyn | Obj | Any | TypeDesc
    | Prim(kind: Cell)
    | Arr(size: Cell, elem: Schema)
    | Lst(elem: Schema)
    | Opt(elem: Schema)
    | Assoc(key: Schema, value: Schema)
    | Mat(dims: seq<Cell>, elem: Schema)
    | Img(rank: Cell, elem: Schema)
    | Tup(elems: seq<Schema>)
    | Struct(index: Cell, total: nat, equivalent: bool, ext: seq<Schema>)
    | Foreign

  /** Type codes as `TypeCode::compile` and `match` leave them. */
  predicate Compiled(types: TypeInfo) {
    types.TypeInfo? ==>
      && (forall e :: e in types.ext ==> WellFormed(e, types, 0))
      && (forall d :: d in types.depends ==> d.TypeInfo? && Compiled(d))
      && (types.equivalent ==> types.ext == [])
  }

  /** The schema at pos. Codes of the other byte order are `Foreign`. */
  function Decode(code: seq<Cell>, types: TypeInfo, pos: nat): Schema
    requires WellFormed(code, types, pos) && Compiled(types)
    decreases types, 0, |code| - pos, 1
  {
    var instr := Fetch(code, types, pos).value;
    if instr.base == CODE_STRUCT && !instr.alt then StructOf(types.depends[code[pos + 1]], code[pos + 1])
    else Build(code, pos, instr, DecodeAll(code, types, pos, instr.children))
  }

  /** Single bytes have no byte order, so both codes mean the same. */
  predicate IsByteSized(c: Cell) {
    Base(c) == CODE_BOOL || Base(c) == CODE_UINT8 || Base(c) == CODE_INT8
  }

  /** The size of a number of that code, or 0 for codes that are not those of native numbers. */
  function Width(c: Cell): nat {
    if IsByteSized(c) then 1
    else if c == CODE_UINT16 || c == CODE_INT16 then 2
    else if c == CODE_UINT32 || c == CODE_INT32 || c == CODE_FLOAT then 4
    else if c == CODE_UINT64 || c == CODE_INT64 || c == CODE_DOUBLE then 8
    else 0
  }

  /** The schema of an instruction other than a struct, given those of the codes it refers to. */
  function Build(code: seq<Cell>, pos: nat, instr: Instr, kids: seq<Schema>): Schema
    requires pos < |code|
  {
    var base := instr.base;
    if base == CODE_NULL then Null
    else if Width(code[pos]) > 0 then Prim(code[pos])
    else if instr.alt then Foreign
    else if base == CODE_STRING then Str
    else if base == CODE_DYNAMIC then Dyn
    else if base == CODE_OBJECT then Obj
    else if base == CODE_ANY then Any
    else if base == CODE_TYPE_CODE then TypeDesc
    else if base == CODE_LIST && |kids| == 1 then Lst(kids[0])
    else if base == CODE_OPTIONAL && |kids| == 1 then Opt(kids[0])
    else if pos + 1 >= |code| then Foreign
    else if base == CODE_ARRAY && |kids| == 1 then Arr(code[pos + 1], kids[0])
    else if base == CODE_MAP && |kids| == 2 then Assoc(kids[0], kids[1])
    else if base == CODE_MATRIX && |kids| == 1 && pos + 2 + code[pos + 1] <= |code| then
      Mat(code[pos + 2..pos + 2 + code[pos + 1]], kids[0])
    else if base == CODE_IMAGE && |kids| == 1 then Img(code[pos + 1], kids[0])
    else if base == CODE_TUPLE then Tup(kids)
    else Foreign
  }

  function DecodeAll(code: seq<Cell>, types: TypeInfo, pos: nat, children: seq<nat>): (kids: seq<Schema>)
    requires pos < |code| && Compiled(types)
    requires forall k: nat :: k < |children| ==> pos < children[k] && WellFormed(code, types, children[k])
    ensures |kids| == |children|
    ensures forall k: nat :: k < |children| ==> kids[k] == Decode(code, types, children[k])
    decreases types, 0, |code| - pos, 0, |children|
  {
    if children == [] then []
    else [Decode(code, types, children[0])] + DecodeAll(code, types, pos, children[1..])
  }

  /** Where the element code of an instruction with one element starts. */
  function ElementAt(code: seq<Cell>, pos: nat): nat
    requires pos < |code|
  {
    if code[pos] == CODE_LIST || code[pos] == CODE_OPTIONAL then pos + 1
    else if code[pos] == CODE_MATRIX && pos + 1 < |code| then pos + 2 + code[pos + 1]
    else pos + 2
  }

  predicate HasElement(c: Cell) {
    c == CODE_ARRAY || c == CODE_LIST || c == CODE_OPTIONAL || c == CODE_MATRIX || c == CODE_IMAGE
  }

  lemma {:induction false} ElementCode(code: seq<Cell>, types: TypeInfo, pos: nat)
    requires WellFormed(code, types, pos) && HasElement(code[pos])
    ensures WellFormed(code, types, ElementAt(code, pos)) && pos < ElementAt(code, pos) < |code|
    ensures Fetch(code, types, pos) == Ok(Instr(code[pos], false, [ElementAt(code, pos)], pos))
  {
    assert WellFormed(code, types, Fetch(code, types, pos).value.children[0]);
  }

  lemma {:induction false} DecodeElement(code: seq<Cell>, types: TypeInfo, pos: nat)
    requires WellFormed(code, types, pos) && Compiled(types) && HasElement(code[pos])
    ensures WellFormed(code, types, ElementAt(code, pos)) && pos < ElementAt(code, pos) < |code|
    ensures var elem := Decode(code, types, ElementAt(code, pos));
            Decode(code, types, pos) ==
              if code[pos] == CODE_ARRAY then Arr(code[pos + 1], elem)
              else if code[pos] == CODE_LIST then Lst(elem)
              else if code[pos] == CODE_OPTIONAL then Opt(elem)
              else if code[pos] == CODE_MATRIX then Mat(code[pos + 2..ElementAt(code, pos)], elem)
              else Img(code[pos + 1], elem)
  {
    ElementCode(code, types, pos);
    var instr := Fetch(code, types, pos).value;
    var kids := DecodeAll(code, types, pos, instr.children);
    assert Decode(code, types, pos) == Build(code, pos, instr, kids);
  }

  lemma {:induction false} DecodeMap(code: seq<Cell>, types: TypeInfo, pos: nat)
    requires WellFormed(code, types, pos) && Compiled(types) && code[pos] == CODE_MAP
    ensures pos + 3 < |code| && code[pos + 1] >= 3
    ensures WellFormed(code, types, pos + 2) && WellFormed(code, types, pos + code[pos + 1])
    ensures Decode(code, types, pos)
            == Assoc(Decode(code, types, pos + 2), Decode(code, types, pos + code[pos + 1]))
  {
    MapCode(code, types, pos);
    hide Fetch, WellFormed, Decode, DecodeAll, Height, Last;
    TwoChildren(code, types, pos, Instr(CODE_MAP, false, [pos + 2, pos + code[pos + 1]], pos),
                pos + 2, pos + code[pos + 1]);
  }

  lemma {:induction false} MapCode(code: seq<Cell>, types: TypeInfo, pos: nat)
    requires WellFormed(code, types, pos) && code[pos] == CODE_MAP
    ensures pos + 3 < |code| && code[pos + 1] >= 3
    ensures WellFormed(code, types, pos + 2) && WellFormed(code, types, pos + code[pos + 1])
    ensures Fetch(code, types, pos) == Ok(Instr(CODE_MAP, false, [pos + 2, pos + code[pos + 1]], pos))
  {
    var children := Fetch(code, types, pos).value.children;
    assert WellFormed(code, types, children[0]) && WellFormed(code, types, children[1]);
  }

  lemma {:induction false} DecodeTupleCode(code: seq<Cell>, types: TypeInfo, pos: nat)
    requires WellFormed(code, types, pos) && Compiled(types) && code[pos] == CODE_TUPLE
    ensures pos + 1 < |code| && pos + 2 + code[pos + 1] <= |code|
    ensures forall k: nat :: k < code[pos + 1] ==>
              pos < TupleChild(code, pos, k) && WellFormed(code, types, TupleChild(code, pos, k))
    ensures Decode(code, types, pos) == Tup(DecodeAll(code, types, pos, TupleChildren(code, pos)))
  {
    var instr := Fetch(code, types, pos).value;
    assert instr.children == TupleChildren(code, pos);
    assert forall k: nat :: k < code[pos + 1] ==> instr.children[k] == TupleChild(code, pos, k);
    var kids := DecodeAll(code, types, pos, instr.children);
    assert Decode(code, types, pos) == Build(code, pos, instr, kids);
  }

  /** Codes whose values have parts or a length. */
  predicate IsComposite(c: Cell) {
    HasElement(c) || c == CODE_MAP || c == CODE_TUPLE || c == CODE_STRUCT || c == CODE_STRING
    || c == CODE_DYNAMIC || c == CODE_OBJECT
  }

  lemma {:induction false} DecodeNumber(code: seq<Cell>, types: TypeInfo, pos: nat)
    requires WellFormed(code, types, pos) && Compiled(types) && !IsComposite(code[pos])
    ensures var s := Decode(code, types, pos);
            if code[pos] == CODE_NULL then s == Null
            else if Width(code[pos]) > 0 then s == Prim(code[pos])
            else s == Any || s == TypeDesc || s == Foreign
  {
    var instr := Fetch(code, types, pos).value;
    var kids := DecodeAll(code, types, pos, instr.children);
    assert Base(code[pos]) == CODE_NULL ==> code[pos] == CODE_NULL;
    if instr.base != CODE_STRUCT || instr.alt {
      assert Decode(code, types, pos) == Build(code, pos, instr, kids);
    }
  }

  lemma {:induction false} StructCode(code: seq<Cell>, types: TypeInfo, pos: nat)
    requires WellFormed(code, types, pos) && Compiled(types) && code[pos] == CODE_STRUCT
    ensures pos + 1 < |code| && types.TypeInfo? && code[pos + 1] < |types.depends|
    ensures types.depends[code[pos + 1]] in types.depends
    ensures Decode(code, types, pos) == StructOf(types.depends[code[pos + 1]], code[pos + 1])
  {
  }

  /** A code without structs means the same whatever the types are. */
  lemma {:induction false} DecodeIgnoresTypes(code: seq<Cell>, types: TypeInfo, pos: nat)
    requires WellFormed(code, NoType, pos) && Compiled(types)
    ensures WellFormed(code, types, pos) && Decode(code, types, pos) == Decode(code, NoType, pos)
    decreases |code| - pos
  {
    var instr := Fetch(code, NoType, pos).value;
    assert Fetch(code, types, pos) == Ok(instr) && instr.base != CODE_STRUCT;
    forall k: nat | k < |instr.children|
      ensures WellFormed(code, types, instr.children[k])
      ensures Decode(code, types, instr.children[k]) == Decode(code, NoType, instr.children[k])
    {
      DecodeIgnoresTypes(code, types, instr.children[k]);
    }
    assert DecodeAll(code, types, pos, instr.children) == DecodeAll(code, NoType, pos, instr.children);
  }

  lemma {:induction false} DecodeSimple(code: seq<Cell>, types: TypeInfo, pos: nat)
    requires WellFormed(code, types, pos) && Compiled(types)
    ensures code[pos] == CODE_STRING ==> Decode(code, types, pos) == Str
    ensures code[pos] == CODE_DYNAMIC ==> Decode(code, types, pos) == Dyn
    ensures code[pos] == CODE_OBJECT ==> Decode(code, types, pos) == Obj
  {
  }

  /** A struct is its primitive block followed by its extended fields. */
  function StructOf(types: TypeInfo, index: Cell): (s: Schema)
    requires types.TypeInfo? && Compiled(types)
    ensures s.Struct? && s.total == types.total && |s.ext| == |types.ext|
    decreases types, 1
  {
    Struct(index, types.total, types.equivalent,
           seq(|types.ext|, k requires 0 <= k < |types.ext| => Decode(types.ext[k], types, 0)))
  }

  /** The bulk branches may be taken: an equivalent struct, at any level, has no extended fields. */
  predicate Sound(s: Schema) {
    match s
    case Arr(_, elem) => Sound(elem)
    case Lst(elem) => Sound(elem)
    case Opt(elem) => Sound(elem)
    case Assoc(key, value) => Sound(key) && Sound(value)
    case Mat(_, elem) => Sound(elem)
    case Img(_, elem) => Sound(elem)
    case Tup(elems) => forall e :: e in elems ==> Sound(e)
    case Struct(_, _, equivalent, ext) => (forall e :: e in ext ==> Sound(e)) && (equivalent ==> ext == [])
    case _ => true
  }

  lemma {:induction false} DecodeIsSound(code: seq<Cell>, types: TypeInfo, pos: nat)
    requires WellFormed(code, types, pos) && Compiled(types)
    ensures Sound(Decode(code, types, pos))
    decreases types, 0, |code| - pos, 1
  {
    var instr := Fetch(code, types, pos).value;
    if instr.base == CODE_STRUCT && !instr.alt {
      var inner := types.depends[code[pos + 1]];
      assert inner in types.depends;
      forall k | 0 <= k < |inner.ext|
        ensures Sound(Decode(inner.ext[k], inner, 0))
      {
        DecodeIsSound(inner.ext[k], inner, 0);
      }
    } else {
      forall k: nat | k < |instr.children|
        ensures Sound(Decode(code, types, instr.children[k]))
      {
        DecodeIsSound(code, types, instr.children[k]);
      }
      BuildIsSound(code, pos, instr, DecodeAll(code, types, pos, instr.children));
    }
  }

  lemma {:induction false} BuildIsSound(code: seq<Cell>, pos: nat, instr: Instr, kids: seq<Schema>)
    requires pos < |code| && forall k: nat :: k < |kids| ==> Sound(kids[k])
    ensures Sound(Build(code, pos, instr, kids))
  {
  }

  // ---------------------------------------------------------------------------------------------
  // Laying a tree out

  /** The in-order layout. Offsets that do not fit a cell show up as numbers of 2^16 or more. */
  function Flatten(s: Schema): (code: seq<nat>)
    ensures |code| > 0
    decreases s, 1
  {
    match s
    case Null => [CODE_NULL]
    case Str => [CODE_STRING]
    case Dyn => [CODE_DYNAMIC]
    case Obj => [CODE_OBJECT]
    case Any => [CODE_ANY]
    case TypeDesc => [CODE_TYPE_CODE]
    case Prim(kind) => [kind]
    case Arr(size, elem) => [CODE_ARRAY, size] + Flatten(elem)
    case Lst(elem) => [CODE_LIST] + Flatten(elem)
    case Opt(elem) => [CODE_OPTIONAL] + Flatten(elem)
    case Assoc(key, value) => [CODE_MAP, 2 + |Flatten(key)|] + Flatten(key) + Flatten(value)
    case Mat(dims, elem) => [CODE_MATRIX, |dims|] + dims + Flatten(elem)
    case Img(rank, elem) => [CODE_IMAGE, rank] + Flatten(elem)
    case Tup(elems) => [CODE_TUPLE, |elems|] + Offsets(elems, 2 + |elems|) + FlattenAll(elems)
    case Struct(index, _, _, _) => [CODE_STRUCT, index]
    case Foreign => [Flip(CODE_ANY)]
  }

  function FlattenAll(elems: seq<Schema>): (code: seq<nat>)
    ensures elems == [] ==> code == []
    decreases elems, 0
  {
    if elems == [] then [] else Flatten(elems[0]) + FlattenAll(elems[1..])
  }

  function Offsets(elems: seq<Schema>, at: nat): (offsets: seq<nat>)
    ensures |offsets| == |elems|
    decreases elems, 0
  {
    if elems == [] then [] else [at] + Offsets(elems[1..], at + |Flatten(elems[0])|)
  }

  /** A tree a code can describe: known kinds, and structs that are those of `types`. */
  predicate Describes(s: Schema, types: TypeInfo)
    requires Compiled(types)
  {
    match s
    case Prim(kind) => Width(kind) > 0
    case Arr(_, elem) => Describes(elem, types)
    case Lst(elem) => Describes(elem, types)
    case Opt(elem) => Describes(elem, types)
    case Assoc(key, value) => Describes(key, types) && Describes(value, types)
    case Mat(_, elem) => Describes(elem, types)
    case Img(_, elem) => Describes(elem, types)
    case Tup(elems) => forall e :: e in elems ==> Describes(e, types)
    case Struct(index, _, _, _) =>
      types.TypeInfo? && index < |types.depends| && s == StructOf(types.depends[index], index)
    case Foreign => false
    case _ => true
  }

  function Depth(s: Schema): (d: nat)
    ensures d > 0
    decreases s, 1
  {
    match s
    case Arr(_, elem) => 1 + Depth(elem)
    case Lst(elem) => 1 + Depth(elem)
    case Opt(elem) => 1 + Depth(elem)
    case Assoc(key, value) => 1 + Max(Depth(key), Depth(value))
    case Mat(_, elem) => 1 + Depth(elem)
    case Img(_, elem) => 1 + Depth(elem)
    case Tup(elems) => 1 + DepthAll(elems)
    case _ => 1
  }

  function DepthAll(elems: seq<Schema>): nat
    decreases elems, 0
  {
    if elems == [] then 0 else Max(Depth(elems[0]), DepthAll(elems[1..]))
  }

  /** The cells of flat stand at pos. */
  predicate StandsAt(code: seq<Cell>, pos: nat, flat: seq<nat>) {
    pos + |flat| <= |code| && forall k: nat :: k < |flat| ==> code[pos + k] == flat[k]
  }

  lemma StandsAtParts(code: seq<Cell>, pos: nat, left: seq<nat>, right: seq<nat>)
    requires StandsAt(code, pos, left + right)
    ensures StandsAt(code, pos, left) && StandsAt(code, pos + |left|, right)
  {
    assert forall k: nat :: k < |left| ==> (left + right)[k] == left[k];
    assert forall k: nat :: k < |right| ==> (left + right)[|left| + k] == right[k];
  }

  /** The code at pos is well formed, reads as s, is `depth` levels deep and `length` cells long. */
  predicate Decoded(code: seq<Cell>, types: TypeInfo, pos: nat, s: Schema, depth: nat, length: nat)
    requires Compiled(types)
  {
    && WellFormed(code, types, pos)
    && Decode(code, types, pos) == s
    && Height(code, types, pos) == depth
    && Last(code, types, pos) == pos + length - 1
  }

  predicate Unary(s: Schema) {
    s.Arr? || s.Lst? || s.Opt? || s.Mat? || s.Img?
  }

  /** The cells of a schema with one element that come before those of the element. */
  function Prefix(s: Schema): (prefix: seq<nat>)
    requires Unary(s)
    ensures Flatten(s) == prefix + Flatten(s.elem)
  {
    match s
    case Arr(size, elem) => [CODE_ARRAY, size]
    case Lst(elem) => [CODE_LIST]
    case Opt(elem) => [CODE_OPTIONAL]
    case Mat(dims, elem) => [CODE_MATRIX, |dims|] + dims
    case Img(rank, elem) => [CODE_IMAGE, rank]
  }

  lemma {:induction false} FetchUnary(code: seq<Cell>, types: TypeInfo, pos: nat, s: Schema)
    requires Unary(s) && StandsAt(code, pos, Prefix(s)) && pos + |Prefix(s)| < |code|
    ensures var instr := Instr(Prefix(s)[0], false, [pos + |Prefix(s)|], pos);
            Fetch(code, types, pos) == Ok(instr) && Build(code, pos, instr, [s.elem]) == s
  {
    hide Flatten;
    var prefix := Prefix(s);
    assert code[pos] == prefix[0];
    if s.Mat? {
      assert code[pos + 1] == prefix[1];
      FetchMatrix(code, types, pos, s.dims, s.elem);
    } else if |prefix| > 1 {
      assert code[pos + 1] == prefix[1];
    }
  }

  lemma {:induction false} FetchMatrix(
      code: seq<Cell>, types: TypeInfo, pos: nat, dims: seq<Cell>, elem: Schema)
    requires StandsAt(code, pos, [CODE_MATRIX, |dims|] + dims) && pos + 2 + |dims| < |code|
    ensures var instr := Instr(CODE_MATRIX, false, [pos + 2 + |dims|], pos);
            Fetch(code, types, pos) == Ok(instr) && Build(code, pos, instr, [elem]) == Mat(dims, elem)
  {
    var prefix := [CODE_MATRIX, |dims|] + dims;
    assert code[pos] == prefix[0] && code[pos + 1] == prefix[1];
    StandsAtParts(code, pos, [CODE_MATRIX, |dims|], dims);
    assert code[pos + 2..pos + 2 + |dims|] == dims by {
      hide Fetch, Build;
    }
    hide StandsAt;
  }

  /** What the walks over a code make of an instruction with one child. */
  lemma {:induction false} OneChild(code: seq<Cell>, types: TypeInfo, pos: nat, instr: Instr, at: nat)
    requires pos < |code| && Fetch(code, types, pos) == Ok(instr) && instr.children == [at]
    requires Compiled(types) && WellFormed(code, types, at) && instr.base != CODE_STRUCT
    ensures WellFormed(code, types, pos)
    ensures Decode(code, types, pos) == Build(code, pos, instr, [Decode(code, types, at)])
    ensures Height(code, types, pos) == 1 + Height(code, types, at)
    ensures Last(code, types, pos) == Last(code, types, at)
  {
    assert [at][1..] == [];
    assert DecodeAll(code, types, pos, [at]) == [Decode(code, types, at)];
    assert MaxHeight(code, types, pos, [at]) == Height(code, types, at);
  }

  lemma {:induction false} TwoChildren(
      code: seq<Cell>, types: TypeInfo, pos: nat, instr: Instr, left: nat, right: nat)
    requires pos < |code| && Fetch(code, types, pos) == Ok(instr) && instr.children == [left, right]
    requires WellFormed(code, types, left) && WellFormed(code, types, right)
    requires Compiled(types) && instr.base != CODE_STRUCT
    ensures WellFormed(code, types, pos)
    ensures Decode(code, types, pos)
            == Build(code, pos, instr, [Decode(code, types, left), Decode(code, types, right)])
    ensures Height(code, types, pos) == 1 + Max(Height(code, types, left), Height(code, types, right))
    ensures Last(code, types, pos) == Last(code, types, right)
  {
    assert [left, right][1..] == [right] && [right][1..] == [];
    assert DecodeAll(code, types, pos, [left, right]) == [Decode(code, types, left), Decode(code, types, right)];
    assert MaxHeight(code, types, pos, [right]) == Height(code, types, right);
    assert MaxHeight(code, types, pos, [left, right]) == Max(Height(code, types, left), Height(code, types, right));
  }

  lemma {:induction false} DecodeUnary(
      code: seq<Cell>, types: TypeInfo, pos: nat, s: Schema, depth: nat, length: nat)
    requires Compiled(types) && Unary(s) && StandsAt(code, pos, Prefix(s))
    requires Decoded(code, types, pos + |Prefix(s)|, s.elem, depth, length)
    ensures Decoded(code, types, pos, s, 1 + depth, |Prefix(s)| + length)
  {
    hide Fetch, Build, Flatten, WellFormed, Decode, Height, Last, StandsAt;
    FetchUnary(code, types, pos, s);
    OneChild(code, types, pos, Instr(Prefix(s)[0], false, [pos + |Prefix(s)|], pos), pos + |Prefix(s)|);
  }

  lemma {:induction false} FetchAssoc(
      code: seq<Cell>, types: TypeInfo, pos: nat, length: nat, key: Schema, value: Schema)
    requires StandsAt(code, pos, [CODE_MAP, 2 + length]) && length > 0 && pos + 2 + length < |code|
    ensures var instr := Instr(CODE_MAP, false, [pos + 2, pos + 2 + length], pos);
            Fetch(code, types, pos) == Ok(instr) && Build(code, pos, instr, [key, value]) == Assoc(key, value)
  {
    var head := [CODE_MAP, 2 + length];
    assert code[pos] == head[0] && code[pos + 1] == head[1];
  }

  lemma {:induction false} DecodeAssoc(
      code: seq<Cell>, types: TypeInfo, pos: nat,
      key: Schema, keyDepth: nat, keyLength: nat, value: Schema, valueDepth: nat, valueLength: nat)
    requires Compiled(types) && StandsAt(code, pos, [CODE_MAP, 2 + keyLength]) && keyLength > 0
    requires Decoded(code, types, pos + 2, key, keyDepth, keyLength)
    requires Decoded(code, types, pos + 2 + keyLength, value, valueDepth, valueLength)
    ensures Decoded(code, types, pos, Assoc(key, value), 1 + Max(keyDepth, valueDepth), 2 + keyLength + valueLength)
  {
    hide Fetch, Build, WellFormed, Decode, Height, Last, StandsAt;
    FetchAssoc(code, types, pos, keyLength, key, value);
    TwoChildren(code, types, pos, Fetch(code, types, pos).value, pos + 2, pos + 2 + keyLength);
  }

  lemma {:induction false} DecodeLeaf(code: seq<Cell>, types: TypeInfo, pos: nat, s: Schema)
    requires Compiled(types) && Describes(s, types) && StandsAt(code, pos, Flatten(s))
    requires !Unary(s) && !s.Assoc? && !s.Tup?
    ensures Decoded(code, types, pos, s, 1, |Flatten(s)|)
  {
    LeafCode(code, types, pos, s);
    hide Fetch, Flatten, Describes, StandsAt;
    var instr := Fetch(code, types, pos).value;
    assert MaxHeight(code, types, pos, []) == 0;
    assert DecodeAll(code, types, pos, []) == [];
  }

  lemma {:induction false} LeafCode(code: seq<Cell>, types: TypeInfo, pos: nat, s: Schema)
    requires Compiled(types) && Describes(s, types) && StandsAt(code, pos, Flatten(s))
    requires !Unary(s) && !s.Assoc? && !s.Tup?
    ensures pos < |code| && Fetch(code, types, pos).Ok? && Fetch(code, types, pos).value.children == []
    ensures Fetch(code, types, pos).value.end == pos + |Flatten(s)| - 1
    ensures var instr := Fetch(code, types, pos).value;
            if s.Struct? then
              && instr.base == CODE_STRUCT && !instr.alt && pos + 1 < |code| && types.TypeInfo?
              && code[pos + 1] < |types.depends| && types.depends[code[pos + 1]] in types.depends
              && StructOf(types.depends[code[pos + 1]], code[pos + 1]) == s
            else instr.base != CODE_STRUCT && Build(code, pos, instr, []) == s
  {
    hide WellFormed;
    assert code[pos] == Flatten(s)[0];
    if s.Struct? {
      assert code[pos + 1] == Flatten(s)[1];
    }
  }

  /** Relative offsets are absolute positions, seen from the tuple. */
  lemma {:induction false} OffsetsShift(elems: seq<Schema>, at: nat, shift: nat)
    ensures forall k: nat :: k < |elems| ==>
              at <= Offsets(elems, at)[k] && Offsets(elems, at + shift)[k] == Offsets(elems, at)[k] + shift
  {
    if elems != [] {
      OffsetsShift(elems[1..], at + |Flatten(elems[0])|, shift);
    }
  }

  lemma {:induction false} FetchTuple(code: seq<Cell>, types: TypeInfo, pos: nat, elems: seq<Schema>)
    requires StandsAt(code, pos, [CODE_TUPLE, |elems|] + Offsets(elems, 2 + |elems|))
    ensures var children := Offsets(elems, pos + 2 + |elems|);
            Fetch(code, types, pos) == Ok(Instr(CODE_TUPLE, false, children, pos + 1))
  {
    hide Offsets;
    OffsetsShift(elems, 2 + |elems|, pos);
    FetchOffsets(code, types, pos, Offsets(elems, 2 + |elems|), Offsets(elems, pos + 2 + |elems|));
  }

  lemma {:induction false} FetchOffsets(
      code: seq<Cell>, types: TypeInfo, pos: nat, offsets: seq<nat>, children: seq<nat>)
    requires StandsAt(code, pos, [CODE_TUPLE, |offsets|] + offsets) && |children| == |offsets|
    requires forall k: nat :: k < |offsets| ==> 2 + |offsets| <= offsets[k] && children[k] == pos + offsets[k]
    ensures Fetch(code, types, pos) == Ok(Instr(CODE_TUPLE, false, children, pos + 1))
  {
    var n, head := |offsets|, [CODE_TUPLE, |offsets|] + offsets;
    assert code[pos] == head[0] && code[pos + 1] == head[1];
    forall k: nat | k < n
      ensures TupleChild(code, pos, k) == children[k]
    {
      assert code[pos + (2 + k)] == head[2 + k];
    }
    assert TupleChildren(code, pos) == children;
  }

  /** The codes at the given positions read as elems, go `depth` levels deep and the last ends at `last`. */
  predicate AllDecoded(
      code: seq<Cell>, types: TypeInfo, pos: nat, children: seq<nat>, elems: seq<Schema>, depth: nat, last: nat)
    requires pos < |code| && Compiled(types)
  {
    && (forall k: nat :: k < |children| ==> pos < children[k] && WellFormed(code, types, children[k]))
    && DecodeAll(code, types, pos, children) == elems
    && MaxHeight(code, types, pos, children) == depth
    && (children != [] ==> Last(code, types, children[|children| - 1]) == last)
  }

  lemma {:induction false} OneMoreDecoded(
      code: seq<Cell>, types: TypeInfo, pos: nat, at: nat, first: Schema, firstDepth: nat, length: nat,
      children: seq<nat>, elems: seq<Schema>, depth: nat, last: nat)
    requires pos < |code| && Compiled(types) && pos < at
    requires Decoded(code, types, at, first, firstDepth, length)
    requires AllDecoded(code, types, pos, children, elems, depth, last)
    requires children == [] ==> last == at + length - 1
    ensures AllDecoded(code, types, pos, [at] + children, [first] + elems, Max(firstDepth, depth), last)
  {
    hide WellFormed, Decode, Height, Last, DecodeAll, MaxHeight;
    ChildrenNext(code, types, pos, at, children);
    var more := [at] + children;
    assert more[|more| - 1] == if children == [] then at else children[|children| - 1];
  }

  /** One more child in front of the others. */
  lemma {:induction false} ChildrenNext(code: seq<Cell>, types: TypeInfo, pos: nat, at: nat, children: seq<nat>)
    requires pos < |code| && Compiled(types) && pos < at && WellFormed(code, types, at)
    requires forall k: nat :: k < |children| ==> pos < children[k] && WellFormed(code, types, children[k])
    ensures forall k: nat :: k < |[at] + children| ==>
              pos < ([at] + children)[k] && WellFormed(code, types, ([at] + children)[k])
    ensures DecodeAll(code, types, pos, [at] + children)
            == [Decode(code, types, at)] + DecodeAll(code, types, pos, children)
    ensures MaxHeight(code, types, pos, [at] + children)
            == Max(Height(code, types, at), MaxHeight(code, types, pos, children))
  {
    hide WellFormed, Decode, Height, Last;
    var more := [at] + children;
    assert more[1..] == children;
  }

  lemma {:induction false} TupleDecoded(
      code: seq<Cell>, types: TypeInfo, pos: nat, children: seq<nat>, elems: seq<Schema>, depth: nat, last: nat)
    requires pos < |code| && Compiled(types)
    requires Fetch(code, types, pos) == Ok(Instr(CODE_TUPLE, false, children, pos + 1))
    requires AllDecoded(code, types, pos, children, elems, depth, last)
    requires children == [] ==> last == pos + 1
    requires last >= pos
    ensures Decoded(code, types, pos, Tup(elems), 1 + depth, last - pos + 1)
  {
    assert Build(code, pos, Instr(CODE_TUPLE, false, children, pos + 1), elems) == Tup(elems);
  }

  /** The codes of the elements of a tuple, laid out one after the other from position at. */
  lemma {:induction false} DecodeElements(
      code: seq<Cell>, types: TypeInfo, pos: nat, elems: seq<Schema>, at: nat)
    requires pos < at && pos < |code| && Compiled(types)
    requires (forall e :: e in elems ==> Describes(e, types)) && StandsAt(code, at, FlattenAll(elems))
    ensures AllDecoded(code, types, pos, Offsets(elems, at), elems, DepthAll(elems), at + |FlattenAll(elems)| - 1)
    decreases elems, 2
  {
    hide Flatten, FlattenAll, Offsets, Depth, DepthAll, Describes, Decoded, AllDecoded;
    if elems == [] {
      NoElements(code, types, pos, at);
    } else {
      var first, rest := elems[0], elems[1..];
      var at', last := at + |Flatten(first)|, at + |FlattenAll(elems)| - 1;
      FirstElement(elems, at);
      StandsAtParts(code, at, Flatten(first), FlattenAll(rest));
      DecodeFlatten(code, types, at, first);
      DecodeElements(code, types, pos, rest, at');
      OneMoreDecoded(code, types, pos, at, first, Depth(first), |Flatten(first)|,
                     Offsets(rest, at'), rest, DepthAll(rest), last);
    }
  }

  lemma NoElements(code: seq<Cell>, types: TypeInfo, pos: nat, at: nat)
    requires pos < |code| && Compiled(types) && at > 0
    ensures AllDecoded(code, types, pos, Offsets([], at), [], DepthAll([]), at - 1)
  {
  }

  lemma {:induction false} FirstElement(elems: seq<Schema>, at: nat)
    requires elems != []
    ensures var first, rest := elems[0], elems[1..];
            && elems == [first] + rest
            && FlattenAll(elems) == Flatten(first) + FlattenAll(rest)
            && Offsets(elems, at) == [at] + Offsets(rest, at + |Flatten(first)|)
            && DepthAll(elems) == Max(Depth(first), DepthAll(rest))
            && (rest == [] ==> FlattenAll(rest) == [])
  {
  }

  lemma UnfoldTuple(s: Schema, types: TypeInfo)
    requires Compiled(types) && s.Tup? && Describes(s, types)
    ensures forall e :: e in s.elems ==> Describes(e, types)
    ensures Flatten(s) == [CODE_TUPLE, |s.elems|] + Offsets(s.elems, 2 + |s.elems|) + FlattenAll(s.elems)
    ensures Depth(s) == 1 + DepthAll(s.elems)
  {
  }

  lemma UnfoldUnary(s: Schema, types: TypeInfo)
    requires Compiled(types) && Unary(s) && Describes(s, types)
    ensures Describes(s.elem, types)
    ensures Flatten(s) == Prefix(s) + Flatten(s.elem)
    ensures Depth(s) == 1 + Depth(s.elem)
  {
  }

  lemma UnfoldAssoc(s: Schema, types: TypeInfo)
    requires Compiled(types) && s.Assoc? && Describes(s, types)
    ensures Describes(s.key, types) && Describes(s.value, types)
    ensures Flatten(s) == [CODE_MAP, 2 + |Flatten(s.key)|] + Flatten(s.key) + Flatten(s.value)
    ensures Depth(s) == 1 + Max(Depth(s.key), Depth(s.value))
  {
  }

  lemma {:induction false} DecodeFlattenTuple(code: seq<Cell>, types: TypeInfo, pos: nat, s: Schema)
    requires Compiled(types) && s.Tup? && Describes(s, types) && StandsAt(code, pos, Flatten(s))
    ensures Decoded(code, types, pos, s, Depth(s), |Flatten(s)|)
    decreases s, 0
  {
    hide Flatten, FlattenAll, Offsets, Depth, DepthAll, Describes, Decoded, AllDecoded, Fetch;
    UnfoldTuple(s, types);
    var elems := s.elems;
    StandsAtParts(code, pos, [CODE_TUPLE, |elems|] + Offsets(elems, 2 + |elems|), FlattenAll(elems));
    FetchTuple(code, types, pos, elems);
    DecodeElements(code, types, pos, elems, pos + 2 + |elems|);
    TupleDecoded(code, types, pos, Offsets(elems, pos + 2 + |elems|), elems, DepthAll(elems),
                 pos + 1 + |elems| + |FlattenAll(elems)|);
  }

  lemma {:induction false} DecodeFlattenUnary(code: seq<Cell>, types: TypeInfo, pos: nat, s: Schema)
    requires Compiled(types) && Unary(s) && Describes(s, types) && StandsAt(code, pos, Flatten(s))
    ensures Decoded(code, types, pos, s, Depth(s), |Flatten(s)|)
    decreases s, 0
  {
    hide Flatten, Depth, Describes, Decoded, Prefix;
    UnfoldUnary(s, types);
    StandsAtParts(code, pos, Prefix(s), Flatten(s.elem));
    DecodeFlatten(code, types, pos + |Prefix(s)|, s.elem);
    DecodeUnary(code, types, pos, s, Depth(s.elem), |Flatten(s.elem)|);
  }

  lemma {:induction false} DecodeFlattenAssoc(code: seq<Cell>, types: TypeInfo, pos: nat, s: Schema)
    requires Compiled(types) && s.Assoc? && Describes(s, types) && StandsAt(code, pos, Flatten(s))
    ensures Decoded(code, types, pos, s, Depth(s), |Flatten(s)|)
    decreases s, 0
  {
    hide Flatten, Depth, Describes, Decoded;
    UnfoldAssoc(s, types);
    var left, right := Flatten(s.key), Flatten(s.value);
    StandsAtParts(code, pos, [CODE_MAP, 2 + |left|] + left, right);
    StandsAtParts(code, pos, [CODE_MAP, 2 + |left|], left);
    DecodeFlatten(code, types, pos + 2, s.key);
    DecodeFlatten(code, types, pos + 2 + |left|, s.value);
    DecodeAssoc(code, types, pos, s.key, Depth(s.key), |left|, s.value, Depth(s.value), |right|);
  }

  /** Whatever stands around it, a layout is well formed, decodes to its tree and ends where it should. */
  lemma {:induction false} DecodeFlatten(code: seq<Cell>, types: TypeInfo, pos: nat, s: Schema)
    requires Compiled(types) && Describes(s, types) && StandsAt(code, pos, Flatten(s))
    ensures Decoded(code, types, pos, s, Depth(s), |Flatten(s)|)
    decreases s, 1
  {
    hide Flatten, Depth, Describes, Decoded;
    if Unary(s) {
      DecodeFlattenUnary(code, types, pos, s);
    } else if s.Assoc? {
      DecodeFlattenAssoc(code, types, pos, s);
    } else if s.Tup? {
      DecodeFlattenTuple(code, types, pos, s);
    } else {
      SimpleDepth(s);
      DecodeLeaf(code, types, pos, s);
    }
  }

  lemma SimpleDepth(s: Schema)
    requires !Unary(s) && !s.Assoc? && !s.Tup?
    ensures Depth(s) == 1
  {
  }

  /** For an in-order layout validation returns its last cell, unless it is nested too deeply. */
  lemma CheckFlatten(code: seq<Cell>, types: TypeInfo, s: Schema)
    requires Compiled(types) && Describes(s, types) && code == Flatten(s)
    ensures WellFormed(code, types, 0) && Decode(code, types, 0) == s
    ensures Validate(code, types, 0, 0)
            == if Depth(s) <= MAX_RECURSION then Ok(|code| - 1) else Err(RecursionOverflow)
  {
    hide Flatten, Depth, Describes, Decode, Validate, WellFormed, Height, Last;
    DecodeFlatten(code, types, 0, s);
    ValidateDecides(code, types, 0, 0);
  }
}

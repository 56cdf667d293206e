/**
 The byte code that describes a type: a flat list of 16-bit cells with relative offsets.
 `Validate` is `validate_code`. `WellFormed` says what a code must be for an interpreter
 to stay inside it, `Decode` reads it as a schema tree and `Flatten` lays a tree out again.
 */
module ByteCode {
  import opened Bytes

  const MAX_RECURSION: nat := 100
  const MAX_BYTE_CODE_SIZE: nat := 32

  const CODE_NULL: Cell := 0
  const CODE_UINT8: Cell := 1
  const CODE_UINT16: Cell := 2
  const CODE_UINT32: Cell := 3
  const CODE_UINT64: Cell := 4
  const CODE_INT8: Cell := 5
  const CODE_INT16: Cell := 6
  const CODE_INT32: Cell := 7
  const CODE_INT64: Cell := 8
  const CODE_FLOAT: Cell := 9
  const CODE_DOUBLE: Cell := 10
  const CODE_ARRAY: Cell := 11
  const CODE_LIST: Cell := 12
  const CODE_MAP: Cell := 13
  const CODE_TYPE_CODE: Cell := 14
  const CODE_ANY: Cell := 16
  const CODE_DYNAMIC: Cell := 17
  const CODE_STRUCT: Cell := 19
  const CODE_MATRIX: Cell := 21
  const CODE_IMAGE: Cell := 22
  const CODE_TUPLE: Cell := 23
  const CODE_OBJECT: Cell := 24
  const CODE_BOOL: Cell := 31
  const CODE_STRING: Cell := 32
  const CODE_OPTIONAL: Cell := 33

  /** What the interpreters need to know of a `TypeCode`; NoType is the null pointer. */
  datatype TypeInfo =
    | NoType
    | TypeInfo(total: nat, equivalent: bool, ext: seq<seq<Cell>>, depends: seq<TypeInfo>)

  datatype CodeError =
    | UnexpectedEnd | RecursionOverflow | MapTooShort | MapOffset | NoTypeCode | StructTooShort
    | StructIndex | MatrixTooShort | ImageTooShort | TupleTooShort | TupleOffset | InvalidCode

  /** Codes of the other byte order are the native ones with their bytes swapped. */
  predicate IsAlt(c: Cell) {
    c >= 0x100
  }

  function Base(c: Cell): Cell {
    if IsAlt(c) then Flip(c) else c
  }

  /** The operand cell at i of an instruction that starts with cell c. */
  function Operand(code: seq<Cell>, c: Cell, i: nat): Cell
    requires i < |code|
  {
    if IsAlt(c) then Flip(code[i]) else code[i]
  }

  predicate IsPrim(base: Cell) {
    CODE_UINT8 <= base <= CODE_DOUBLE || base == CODE_BOOL
  }

  predicate IsLeaf(base: Cell) {
    || base == CODE_NULL || IsPrim(base) || base == CODE_TYPE_CODE || base == CODE_ANY
    || base == CODE_DYNAMIC || base == CODE_OBJECT || base == CODE_STRING
  }

  // ---------------------------------------------------------------------------------------------
  // Validation

  /** One instruction: what it is, where the codes it refers to start, and its own last cell. */
  datatype Instr = Instr(base: Cell, alt: bool, children: seq<nat>, end: nat)

  /** The checks `validate_code` makes on the instruction at pos itself. */
  function Fetch(code: seq<Cell>, types: TypeInfo, pos: nat): (r: Result<Instr, CodeError>)
    requires pos < |code|
    ensures r.Ok? ==> pos <= r.value.end < |code|
    ensures r.Ok? ==> r.value.base == Base(code[pos]) && r.value.alt == IsAlt(code[pos])
    ensures r.Ok? ==> forall k: nat :: k < |r.value.children| ==> pos < r.value.children[k]
  {
    var c := code[pos];
    var base := Base(c);
    var alt := IsAlt(c);
    if IsLeaf(base) then Ok(Instr(base, alt, [], pos))
    else if base == CODE_ARRAY then Ok(Instr(base, alt, [pos + 2], pos))
    else if base == CODE_LIST || base == CODE_OPTIONAL then Ok(Instr(base, alt, [pos + 1], pos))
    else if base == CODE_MAP then
      if pos + 3 >= |code| then Err(MapTooShort)
      else if Operand(code, c, pos + 1) < 3 then Err(MapOffset)
      else Ok(Instr(base, alt, [pos + 2, pos + Operand(code, c, pos + 1)], pos))
    else if base == CODE_STRUCT then
      if types.NoType? then Err(NoTypeCode)
      else if pos + 1 >= |code| then Err(StructTooShort)
      else if Operand(code, c, pos + 1) >= |types.depends| then Err(StructIndex)
      else Ok(Instr(base, alt, [], pos + 1))
    else if base == CODE_MATRIX then
      if pos + 2 >= |code| then Err(MatrixTooShort)
      else Ok(Instr(base, alt, [pos + 2 + Operand(code, c, pos + 1)], pos))
    else if base == CODE_IMAGE then
      if pos + 2 >= |code| then Err(ImageTooShort)
      else Ok(Instr(base, alt, [pos + 2], pos))
    else if base == CODE_TUPLE then
      // The source reads the count before it checks the length; a count past the end, whatever
      // its value, fails that check.
      if pos + 1 >= |code| || pos + 2 + Operand(code, c, pos + 1) > |code| then Err(TupleTooShort)
      else
        var n: nat := Operand(code, c, pos + 1);
        var children := TupleChildren(code, pos);
        if exists k: nat | k < n :: children[k] < pos + 2 + n then Err(TupleOffset)
        else Ok(Instr(base, alt, children, pos + 1))
    else Err(InvalidCode)
  }

  function TupleChild(code: seq<Cell>, pos: nat, i: nat): nat
    requires pos + 2 + i < |code|
  {
    pos + Operand(code, code[pos], pos + 2 + i)
  }

  /** Where the element codes of the tuple at pos start. */
  function TupleChildren(code: seq<Cell>, pos: nat): (children: seq<nat>)
    requires pos + 1 < |code| && pos + 2 + Operand(code, code[pos], pos + 1) <= |code|
    ensures |children| == Operand(code, code[pos], pos + 1)
  {
    seq(Operand(code, code[pos], pos + 1), i requires 0 <= i < Operand(code, code[pos], pos + 1) =>
      TupleChild(code, pos, i))
  }

  /** `validate_code`: the index of the last cell of the code that starts at pos. */
  function Validate(code: seq<Cell>, types: TypeInfo, pos: nat, depth: nat): (r: Result<nat, CodeError>)
    ensures r.Ok? ==> pos <= r.value < |code|
    decreases if pos < |code| then |code| - pos else 0, 1, 0
  {
    if pos >= |code| then Err(UnexpectedEnd)
    else if depth + 1 > MAX_RECURSION then Err(RecursionOverflow)
    else
      var instr := Fetch(code, types, pos);
      if instr.Err? then Err(instr.error)
      else ValidateAll(code, types, pos, instr.value.children, depth + 1, instr.value.end)
  }

  /** Checks the codes an instruction refers to; the end of the last one is the end of the whole. */
  function ValidateAll(code: seq<Cell>, types: TypeInfo, pos: nat, children: seq<nat>, depth: nat, end: nat)
    : (r: Result<nat, CodeError>)
    requires pos <= end < |code| && forall k: nat :: k < |children| ==> pos < children[k]
    ensures r.Ok? ==> pos <= r.value < |code|
    decreases |code| - pos, 0, |children|
  {
    if children == [] then Ok(end)
    else
      var r := Validate(code, types, children[0], depth);
      if r.Err? then r else ValidateAll(code, types, pos, children[1..], depth, r.value)
  }

  // ---------------------------------------------------------------------------------------------
  // What validation accepts

  /** Every cell an interpreter of the code at pos will look at exists. */
  predicate WellFormed(code: seq<Cell>, types: TypeInfo, pos: nat): (b: bool)
    ensures b ==> pos < |code|
    decreases if pos < |code| then |code| - pos else 0
  {
    && pos < |code|
    && var instr := Fetch(code, types, pos);
       instr.Ok? && forall k: nat :: k < |instr.value.children| ==> WellFormed(code, types, instr.value.children[k])
  }

  /** How deep validation has to recurse. */
  function Height(code: seq<Cell>, types: TypeInfo, pos: nat): (h: nat)
    requires WellFormed(code, types, pos)
    decreases |code| - pos, 1, 0
  {
    1 + MaxHeight(code, types, pos, Fetch(code, types, pos).value.children)
  }

  function MaxHeight(code: seq<Cell>, types: TypeInfo, pos: nat, children: seq<nat>): nat
    requires pos < |code|
    requires forall k: nat :: k < |children| ==> pos < children[k] && WellFormed(code, types, children[k])
    decreases |code| - pos, 0, |children|
  {
    if children == [] then 0
    else Max(Height(code, types, children[0]), MaxHeight(code, types, pos, children[1..]))
  }

  /** Where the code at pos ends: the last code it refers to is taken to be its last part. */
  function Last(code: seq<Cell>, types: TypeInfo, pos: nat): (last: nat)
    requires WellFormed(code, types, pos)
    ensures pos <= last < |code|
    decreases |code| - pos
  {
    var instr := Fetch(code, types, pos).value;
    if instr.children == [] then instr.end
    else Last(code, types, instr.children[|instr.children| - 1])
  }

  function Max(a: nat, b: nat): nat {
    if a < b then b else a
  }

  /** Validation accepts exactly the well formed codes that are not nested too deeply. */
  lemma {:induction false} ValidateDecides(code: seq<Cell>, types: TypeInfo, pos: nat, depth: nat)
    ensures Validate(code, types, pos, depth).Ok?
            <==> WellFormed(code, types, pos) && depth + Height(code, types, pos) <= MAX_RECURSION
    ensures Validate(code, types, pos, depth).Ok? ==>
              Validate(code, types, pos, depth).value == Last(code, types, pos)
    ensures WellFormed(code, types, pos) && Validate(code, types, pos, depth).Err? ==>
              Validate(code, types, pos, depth) == Err(RecursionOverflow)
    decreases if pos < |code| then |code| - pos else 0, 1, 0
  {
    if pos < |code| && depth + 1 <= MAX_RECURSION && Fetch(code, types, pos).Ok? {
      var instr := Fetch(code, types, pos).value;
      ValidateAllDecides(code, types, pos, instr.children, depth + 1, instr.end);
    }
  }

  lemma {:induction false} ValidateAllDecides(
      code: seq<Cell>, types: TypeInfo, pos: nat, children: seq<nat>, depth: nat, end: nat)
    requires pos <= end < |code| && forall k: nat :: k < |children| ==> pos < children[k]
    requires depth <= MAX_RECURSION
    ensures ValidateAll(code, types, pos, children, depth, end).Ok?
            <==> (forall k: nat :: k < |children| ==> WellFormed(code, types, children[k]))
                 && depth + MaxHeight(code, types, pos, children) <= MAX_RECURSION
    ensures var r := ValidateAll(code, types, pos, children, depth, end);
            && (r.Ok? ==> r.value == if children == [] then end else Last(code, types, children[|children| - 1]))
            && (r.Err? && (forall k: nat :: k < |children| ==> WellFormed(code, types, children[k])) ==>
                  r == Err(RecursionOverflow))
    decreases |code| - pos, 0, |children|
  {
    hide Validate, WellFormed, Height, Last;
    if children != [] {
      ValidateDecides(code, types, children[0], depth);
      var r := Validate(code, types, children[0], depth);
      if r.Ok? {
        ValidateAllDecides(code, types, pos, children[1..], depth, r.value);
        assert forall k: nat :: k < |children| && k > 0 ==> children[k] == children[1..][k - 1];
      }
    }
  }
}

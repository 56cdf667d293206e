/** Variants: values that carry their code. Their order, what they feed to their hash, and integers. */
module Variants {
  import opened Bytes
  import opened ByteCode
  import opened Schemas
  import opened Wire
  import opened CopySpec
  import opened CopyLaws
  import opened Ordering
  import opened CompareSpec
  import opened CompareLaws

  datatype Variant = Empty | Holding(code: seq<Cell>, bytes: seq<Byte>)

  /** The bytes of a Variant: the size of the code, the code, the value. */
  function Data(x: Variant): seq<Byte> {
    if x.Empty? then [] else LittleEndian(|x.code|, 2) + CellBytes(x.code) + x.bytes
  }

  predicate ValidVariant(x: Variant) {
    x.Holding? ==> ValidDynamicCode(x.code)
  }

  function SchemaOf(code: seq<Cell>): Schema
    requires ValidDynamicCode(code)
  {
    ValidateDecides(code, NoType, 0, 0);
    Decode(code, NoType, 0)
  }

  /** A comparison of two values; None if it throws or is not covered. */
  function CompareValues(x: Variant, y: Variant): Option<int>
    requires ValidVariant(x) && ValidVariant(y) && x.Holding? && y.Holding?
  {
    match Compare(SchemaOf(x.code), SchemaOf(y.code), x.bytes, y.bytes, 0)
    case Differ(sign) => Some(sign)
    case Same(_, _) => Some(0)
    case _ => None
  }

  /** `operator==`. */
  function Equal(x: Variant, y: Variant): Option<bool>
    requires ValidVariant(x) && ValidVariant(y)
  {
    if x.Empty? || y.Empty? then Some(x.Empty? && y.Empty?)
    else
      var r := CompareValues(x, y);
      if r.None? then None else Some(r.value == 0)
  }

  /** `operator<`: an empty Variant comes before all others. */
  function Less(x: Variant, y: Variant): Option<bool>
    requires ValidVariant(x) && ValidVariant(y)
  {
    if x.Empty? || y.Empty? then Some(x.Empty? && !y.Empty?)
    else
      var r := CompareValues(x, y);
      if r.None? then None else Some(r.value < 0)
  }

  /** `operator<=`. */
  function AtMost(x: Variant, y: Variant): Option<bool>
    requires ValidVariant(x) && ValidVariant(y)
  {
    if x.Empty? || y.Empty? then Some(x.Empty?)
    else
      var r := CompareValues(x, y);
      if r.None? then None else Some(r.value <= 0)
  }

  /** An empty Variant, or one that holds an ordered value of that code. */
  ghost predicate HoldsOrdered(code: seq<Cell>, x: Variant)
    requires ValidDynamicCode(code)
  {
    x.Holding? ==> x.code == code && exists v :: InOrder(SchemaOf(code), v) && x.bytes == Encode(SchemaOf(code), v)
  }

  /** A code that was accepted is never too deep for `compare`. */
  lemma {:induction false} DepthIsHeight(code: seq<Cell>, types: TypeInfo, pos: nat)
    requires WellFormed(code, types, pos) && Compiled(types)
    ensures Depth(Decode(code, types, pos)) <= Height(code, types, pos)
    decreases |code| - pos, 1, 0
  {
    var instr := Fetch(code, types, pos).value;
    if instr.base != CODE_STRUCT || instr.alt {
      DepthsAreHeights(code, types, pos, instr.children);
      BuildDepth(code, pos, instr, DecodeAll(code, types, pos, instr.children));
    }
  }

  lemma {:induction false} DepthsAreHeights(code: seq<Cell>, types: TypeInfo, pos: nat, children: seq<nat>)
    requires pos < |code| && Compiled(types)
    requires forall k: nat :: k < |children| ==> pos < children[k] && WellFormed(code, types, children[k])
    ensures DepthAll(DecodeAll(code, types, pos, children)) <= MaxHeight(code, types, pos, children)
    decreases |code| - pos, 0, |children|
  {
    hide WellFormed, Decode, Depth, Height;
    if children != [] {
      DepthIsHeight(code, types, children[0]);
      DepthsAreHeights(code, types, pos, children[1..]);
    }
  }

  lemma {:induction false} BuildDepth(code: seq<Cell>, pos: nat, instr: Instr, kids: seq<Schema>)
    requires pos < |code|
    ensures Depth(Build(code, pos, instr, kids)) <= 1 + DepthAll(kids)
  {
    hide Depth;
    UnaryDepth(kids);
    BuiltDepth(Build(code, pos, instr, kids));
  }

  lemma UnaryDepth(kids: seq<Schema>)
    ensures |kids| >= 1 ==> Depth(kids[0]) <= DepthAll(kids)
    ensures |kids| >= 2 ==> Depth(kids[1]) <= DepthAll(kids)
  {
    if |kids| >= 2 {
      assert kids[1..][0] == kids[1];
    }
  }

  lemma {:induction false} BuiltDepth(s: Schema)
    ensures Unary(s) ==> Depth(s) == 1 + Depth(s.elem)
    ensures s.Assoc? ==> Depth(s) == 1 + Max(Depth(s.key), Depth(s.value))
    ensures s.Tup? ==> Depth(s) == 1 + DepthAll(s.elems)
    ensures !Unary(s) && !s.Assoc? && !s.Tup? ==> Depth(s) == 1
  {
  }

  lemma {:induction false} DepthFits(code: seq<Cell>)
    requires ValidDynamicCode(code)
    ensures Depth(SchemaOf(code)) <= MAX_RECURSION
  {
    ValidateDecides(code, NoType, 0, 0);
    DepthIsHeight(code, NoType, 0);
  }

  /**
   Among the ordered values of one code, and nothing at all, the operators are those of a total order,
   and equal Variants have the same data.
   */
  lemma {:induction false} VariantsAreOrdered(code: seq<Cell>, x: Variant, y: Variant, z: Variant)
    requires ValidVariant(x) && ValidVariant(y) && ValidVariant(z)
    requires ValidDynamicCode(code) && HoldsOrdered(code, x) && HoldsOrdered(code, y) && HoldsOrdered(code, z)
    ensures Equal(x, y) == Some(Data(x) == Data(y))
    ensures AtMost(x, y) == Some(Less(x, y) == Some(true) || Equal(x, y) == Some(true))
    ensures Less(x, y) == Some(AtMost(y, x) == Some(false))
    ensures AtMost(x, y) == Some(true) && AtMost(y, z) == Some(true) ==> AtMost(x, z) == Some(true)
    ensures x.Empty? && y.Holding? ==> Less(x, y) == Some(true)
  {
    assert |code| <= MAX_BYTE_CODE_SIZE;
    hide Compare, InOrder, Order, Encode, ValidDynamicCode, SchemaOf;
    CompareHolding(code, x, y, z);
    CompareHolding(code, y, x, z);
    SameData(x, y);
  }

  lemma {:induction false} CompareHolding(code: seq<Cell>, x: Variant, y: Variant, z: Variant)
    requires ValidDynamicCode(code) && HoldsOrdered(code, x) && HoldsOrdered(code, y) && HoldsOrdered(code, z)
    ensures x.Holding? && y.Holding? ==>
              && CompareValues(x, y).Some? && CompareValues(y, x) == Some(-CompareValues(x, y).value)
              && (CompareValues(x, y).value == 0 <==> x == y)
    ensures x.Holding? && y.Holding? && z.Holding? ==>
              && CompareValues(y, z).Some? && CompareValues(x, z).Some?
              && (CompareValues(x, y).value <= 0 && CompareValues(y, z).value <= 0 ==> CompareValues(x, z).value <= 0)
  {
    hide Compare, HasType, Ordered, Canonical, Order, Encode, Depth;
    DepthFits(code);
    var s := SchemaOf(code);
    if x.Holding? && y.Holding? {
      var v :| InOrder(s, v) && x.bytes == Encode(s, v);
      var w :| InOrder(s, w) && y.bytes == Encode(s, w);
      CompareWhole(s, v, w);
      CompareWhole(s, w, v);
      OrderLaws(s, v, w);
      EqualMeansSameBytes(s, v, w, [], [], 0);
      if z.Holding? {
        var u :| InOrder(s, u) && z.bytes == Encode(s, u);
        CompareWhole(s, w, u);
        CompareWhole(s, v, u);
        if Order(s, v, w) <= 0 && Order(s, w, u) <= 0 {
          OrderTransitive(s, v, w, u);
        }
      }
    }
  }

  lemma {:induction false} CompareWhole(s: Schema, v: Value, w: Value)
    requires InOrder(s, v) && InOrder(s, w) && Depth(s) <= MAX_RECURSION
    ensures Compare(s, s, Encode(s, v), Encode(s, w), 0) == Decide(Order(s, v, w), [], [])
  {
    hide Compare, Order, Encode, Depth, HasType, Ordered, Canonical;
    CompareEncoded(s, v, w, [], [], 0);
    assert Encode(s, v) + [] == Encode(s, v) && Encode(s, w) + [] == Encode(s, w);
  }

  lemma {:induction false} SameData(x: Variant, y: Variant)
    requires x.Holding? ==> |x.code| <= MAX_BYTE_CODE_SIZE
    requires y.Holding? ==> |y.code| <= MAX_BYTE_CODE_SIZE
    ensures Data(x) == Data(y) <==> x == y
  {
    hide LittleEndian, FromLittleEndian, CellBytes, ReadCells;
    if x.Holding? && y.Holding? && Data(x) == Data(y) {
      Pow256Values();
      var a, b := CellBytes(x.code) + x.bytes, CellBytes(y.code) + y.bytes;
      assert Data(x) == LittleEndian(|x.code|, 2) + a && Data(y) == LittleEndian(|y.code|, 2) + b;
      ReadInteger(|x.code|, 2, a);
      ReadInteger(|y.code|, 2, b);
      ReadBackCells(x.code, x.bytes);
      ReadBackCells(y.code, y.bytes);
      assert a[2 * |x.code|..] == x.bytes && b[2 * |y.code|..] == y.bytes;
    }
  }

  // ---------------------------------------------------------------------------------------------
  // Integers

  /** `write_dynamic` of an unsigned integer of 1, 2, 4 or 8 bytes: narrower while it fits. */
  function WriteUnsigned(width: nat, n: nat): Variant
    requires width in {1, 2, 4, 8} && n < Pow256(width)
    decreases width, 0
  {
    Pow256Values();
    Pow256Large();
    if width == 1 then Holding([CODE_UINT8], LittleEndian(n, 1))
    else if width == 2 then
      if n / 0x100 != 0 then Holding([CODE_UINT16], LittleEndian(n, 2)) else WriteUnsigned(1, n)
    else if width == 4 then
      if n / 0x10000 != 0 then Holding([CODE_UINT32], LittleEndian(n, 4)) else WriteUnsigned(2, n)
    else
      if n / 0x1_0000_0000 != 0 then Holding([CODE_UINT64], LittleEndian(n, 8)) else WriteUnsigned(4, n)
  }

  /** Two's complement in that many bytes. */
  function TwosComplement(n: int, width: nat): seq<Byte>
    requires 0 <= n + Pow256(width) && n < Pow256(width)
  {
    LittleEndian(if n < 0 then n + Pow256(width) else n, width)
  }

  predicate FitsSigned(n: int, width: nat) {
    0 <= 2 * n + Pow256(width) && 2 * n < Pow256(width)
  }

  /** `write_dynamic` of a signed integer. */
  function WriteSigned(width: nat, n: int): Variant
    requires width in {1, 2, 4, 8} && FitsSigned(n, width)
    decreases width, 1
  {
    Pow256Values();
    Pow256Large();
    if n >= 0 then WriteUnsigned(width, n)
    else if width == 1 then Holding([CODE_INT8], TwosComplement(n, 1))
    else if width == 2 then
      if n < -128 then Holding([CODE_INT16], TwosComplement(n, 2)) else WriteSigned(1, n)
    else if width == 4 then
      if n < -32768 then Holding([CODE_INT32], TwosComplement(n, 4)) else WriteSigned(2, n)
    else
      if n < -2147483648 then Holding([CODE_INT64], TwosComplement(n, 8)) else WriteSigned(4, n)
  }

  /** The narrowest integer code a number fits in, unsigned if it is not negative. */
  function NarrowestCode(n: int): Cell {
    if n >= 0 then
      if n < 0x100 then CODE_UINT8 else if n < 0x10000 then CODE_UINT16
      else if n < 0x1_0000_0000 then CODE_UINT32 else CODE_UINT64
    else
      if n >= -128 then CODE_INT8 else if n >= -32768 then CODE_INT16
      else if n >= -2147483648 then CODE_INT32 else CODE_INT64
  }

  lemma {:induction false} ReadBackNumber(kind: Cell, n: int)
    requires Base(kind) != CODE_BOOL && IsNumber(kind)
    requires if IsSigned(kind) then FitsSigned(n, Width(kind)) else 0 <= n < Pow256(Width(kind))
    ensures Number(kind, TwosComplement(n, Width(kind))) == n
  {
    hide LittleEndian, FromLittleEndian;
    Pow256Values();
    Pow256Large();
    ReadBackInteger(if n < 0 then n + Pow256(Width(kind)) else n, Width(kind));
  }

  /** Every width writes a number as the same bytes: the narrowest code, which reads back as the number. */
  lemma {:induction false} UnsignedIsCanonical(width: nat, n: nat)
    requires width in {1, 2, 4, 8} && n < Pow256(width)
    ensures n < Pow256(Width(NarrowestCode(n)))
    ensures WriteUnsigned(width, n)
            == Holding([NarrowestCode(n)], TwosComplement(n, Width(NarrowestCode(n))))
    decreases width
  {
    hide LittleEndian;
    Pow256Values();
    Pow256Large();
    if width == 8 && n < 0x1_0000_0000 {
      UnsignedIsCanonical(4, n);
    } else if width == 4 && n < 0x10000 {
      UnsignedIsCanonical(2, n);
    } else if width == 2 && n < 0x100 {
      UnsignedIsCanonical(1, n);
    }
  }

  lemma {:induction false} SignedIsCanonical(width: nat, n: int)
    requires width in {1, 2, 4, 8} && FitsSigned(n, width)
    ensures 0 <= n + Pow256(Width(NarrowestCode(n))) && n < Pow256(Width(NarrowestCode(n)))
    ensures WriteSigned(width, n)
            == Holding([NarrowestCode(n)], TwosComplement(n, Width(NarrowestCode(n))))
    ensures Number(NarrowestCode(n), WriteSigned(width, n).bytes) == n
    decreases width
  {
    hide LittleEndian, FromLittleEndian, Number;
    Pow256Values();
    Pow256Large();
    ReadBackNumber(NarrowestCode(n), n);
    if n >= 0 {
      UnsignedIsCanonical(width, n);
    } else if width == 8 && n >= -2147483648 {
      SignedIsCanonical(4, n);
    } else if width == 4 && n >= -32768 {
      SignedIsCanonical(2, n);
    } else if width == 2 && n >= -128 {
      SignedIsCanonical(1, n);
    }
  }

  /** The code of a single number is valid and read as that number. */
  lemma {:induction false} NumberCode(kind: Cell)
    requires Width(kind) > 0 && !IsAlt(kind)
    ensures ValidDynamicCode([kind]) && SchemaOf([kind]) == Prim(kind)
  {
    var code := [kind];
    assert Fetch(code, NoType, 0) == Ok(Instr(kind, false, [], 0));
    ValidateDecides(code, NoType, 0, 0);
    assert Decode(code, NoType, 0) == Build(code, 0, Instr(kind, false, [], 0), []);
  }

  /** A number as an integer Variant. */
  function IntegerVariant(n: int): Variant
    requires -0x8000_0000_0000_0000 <= n < 0x1_0000_0000_0000_0000
  {
    Pow256Values();
    Pow256Large();
    Holding([NarrowestCode(n)], TwosComplement(n, Width(NarrowestCode(n))))
  }

  /** n is so large that, taken as signed, it is not above the negative m. */
  predicate WrapsBelow(n: int, m: int) {
    m < 0 && n >= 0x8000_0000_0000_0000 && n - 0x1_0000_0000_0000_0000 <= m
  }

  /**
   Integer Variants compare as numbers unless one of them wraps below the other, and they are equal
   exactly when their data is the same or one wraps around to the other.
   */
  lemma {:induction false} IntegerVariantsCompare(n: int, m: int)
    requires -0x8000_0000_0000_0000 <= n < 0x1_0000_0000_0000_0000
    requires -0x8000_0000_0000_0000 <= m < 0x1_0000_0000_0000_0000
    ensures var x, y := IntegerVariant(n), IntegerVariant(m);
            && ValidVariant(x) && ValidVariant(y)
            && (CompareValues(x, y) == Some(Sign(n, m)) <==> !WrapsBelow(n, m) && !WrapsBelow(m, n))
            && (!WrapsBelow(n, m) && !WrapsBelow(m, n) ==> Less(x, y) == Some(n < m))
            && (Equal(x, y) == Some(true)
                <==> Data(x) == Data(y) || n - m == 0x1_0000_0000_0000_0000 || m - n == 0x1_0000_0000_0000_0000)
  {
    hide LittleEndian, FromLittleEndian, Number, SchemaOf, ValidDynamicCode, Compare;
    var x, y := IntegerVariant(n), IntegerVariant(m);
    var s, t := x.code[0], y.code[0];
    Pow256Values();
    Pow256Large();
    NumberCode(s);
    NumberCode(t);
    ReadBackNumber(s, n);
    ReadBackNumber(t, m);
    IntegersCompareAsNumbers(s, x.bytes, t, y.bytes);
    CompareTwoNumbers(s, x.bytes, t, y.bytes);
    WrapSmall(n);
    WrapSmall(m);
    SameData(x, y);
  }

  lemma {:induction false} CompareTwoNumbers(s: Cell, a: seq<Byte>, t: Cell, b: seq<Byte>)
    requires IsNumber(s) && |a| == Width(s) && IsNumber(t) && |b| == Width(t)
    ensures Compare(Prim(s), Prim(t), a, b, 0) == Decide(CompareNumbers(s, Number(s, a), t, Number(t, b)), [], [])
  {
    hide Number;
    assert a[..Width(s)] == a && b[..Width(t)] == b;
    assert Compare(Prim(s), Prim(t), a, b, 0) == CompareInside(Prim(s), Prim(t), a, b, 1);
    assert CompareInside(Prim(s), Prim(t), a, b, 1) == CompareKinds(Prim(s), Prim(t), a, b, 1);
  }
}

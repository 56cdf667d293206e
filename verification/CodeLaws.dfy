/** What validation accepts: independence of byte order, single cells, nesting, and codes cut short. */
module CodeLaws {
  import opened Bytes
  import opened ByteCode
  import opened Schemas
  import opened Wire
  import opened CopySpec
  import opened CopyLaws

  /** A code as a machine of the other byte order writes it. */
  function Flipped(code: seq<Cell>): (r: seq<Cell>)
    ensures |r| == |code| && forall i :: 0 <= i < |r| ==> r[i] == Flip(code[i])
  {
    seq(|code|, i requires 0 <= i < |code| => Flip(code[i]))
  }

  lemma FlipTwice(c: Cell)
    ensures Flip(Flip(c)) == c
  {
    var low, high := c % 256, c / 256;
    SplitCell(low, high);
    SplitCell(high, low);
    assert c == 256 * high + low;
    hide *;
  }

  lemma SplitCell(low: Byte, high: Byte)
    ensures Flip(256 * high + low) == 256 * low + high
  {
    var c := 256 * high + low;
    assert c / 256 == high && c % 256 == low;
  }

  /** The cells that start an instruction: those of this byte order, or all but 0 with the bytes swapped. */
  predicate IsInstruction(c: Cell) {
    c in {0, 1, 2, 3, 4, 5, 6, 7, 8, 9, 10, 11, 12, 13, 14, 16, 17, 19, 21, 22, 23, 24, 31, 32, 33}
  }

  lemma KnownCells(code: seq<Cell>, types: TypeInfo, pos: nat)
    requires pos < |code|
    ensures !IsInstruction(Base(code[pos])) ==> Fetch(code, types, pos) == Err(InvalidCode)
  {
  }

  /** One instruction, in either byte order. */
  lemma {:induction false} FetchFlipped(code: seq<Cell>, types: TypeInfo, pos: nat)
    requires pos < |code|
    ensures var a, b := Fetch(code, types, pos), Fetch(Flipped(code), types, pos);
            if a.Err? then b == a
            else b.Ok? && b.value.base == a.value.base && b.value.children == a.value.children && b.value.end == a.value.end
  {
    var code' := Flipped(code);
    var c := code[pos];
    FlippedBase(c);
    if IsInstruction(Base(c)) {
      if c == 0 {
        assert code'[pos] == 0;
      } else {
        forall i: nat | i < |code|
          ensures Operand(code', code'[pos], i) == Operand(code, c, i)
        {
          FlipTwice(code[i]);
        }
        SameOperands(code, types, pos);
      }
    } else {
      KnownCells(code, types, pos);
      KnownCells(code', types, pos);
    }
  }

  lemma FlippedBase(c: Cell)
    ensures IsInstruction(Base(c)) ==> Base(Flip(c)) == Base(c) && (c != 0 ==> IsAlt(Flip(c)) == !IsAlt(c))
    ensures !IsInstruction(Base(c)) ==> !IsInstruction(Base(Flip(c)))
  {
    SmallBase(c);
    SmallBase(Flip(c));
    FlipTwice(c);
    SmallInstruction(Base(c));
    SmallInstruction(Base(Flip(c)));
    hide *;
  }

  lemma SmallInstruction(c: Cell)
    ensures IsInstruction(c) ==> c < 0x100
  {
  }

  lemma SmallBase(c: Cell)
    ensures Base(c) < 0x100 ==> Base(Flip(c)) == Base(c) && (c != 0 ==> IsAlt(Flip(c)) == !IsAlt(c))
  {
    FlipParts(c);
    FlipTwice(c);
    hide Flip;
  }

  lemma FlipParts(c: Cell)
    ensures c < 0x100 ==> Flip(c) == 256 * c
    ensures c >= 0x100 && Flip(c) < 0x100 ==> c == 256 * Flip(c)
    ensures Flip(c) == 0 ==> c == 0
  {
  }

  lemma {:induction false} SameOperands(code: seq<Cell>, types: TypeInfo, pos: nat)
    requires pos < |code| && Base(Flip(code[pos])) == Base(code[pos])
    requires forall i: nat :: i < |code| ==>
               Operand(Flipped(code), Flip(code[pos]), i) == Operand(code, code[pos], i)
    ensures var a, b := Fetch(code, types, pos), Fetch(Flipped(code), types, pos);
            if a.Err? then b == a
            else b.Ok? && b.value.base == a.value.base && b.value.children == a.value.children && b.value.end == a.value.end
  {
    hide Operand, Base, IsAlt;
    var code' := Flipped(code);
    if Base(code[pos]) == CODE_TUPLE && pos + 1 < |code| && pos + 2 + Operand(code, code[pos], pos + 1) <= |code| {
      forall i: nat | i < Operand(code, code[pos], pos + 1)
        ensures TupleChild(code', pos, i) == TupleChild(code, pos, i)
      {
      }
      assert TupleChildren(code', pos) == TupleChildren(code, pos);
    }
  }

  /** Validation says the same of a code in either byte order. */
  lemma {:induction false} ValidateFlipped(code: seq<Cell>, types: TypeInfo, pos: nat, depth: nat)
    ensures Validate(Flipped(code), types, pos, depth) == Validate(code, types, pos, depth)
    decreases if pos < |code| then |code| - pos else 0, 1, 0
  {
    hide Validate, ValidateAll, Fetch, Flipped;
    ValidateNext(code, types, pos, depth);
    ValidateNext(Flipped(code), types, pos, depth);
    if pos < |code| && depth + 1 <= MAX_RECURSION {
      FetchFlipped(code, types, pos);
      var r := Fetch(code, types, pos);
      if r.Ok? {
        ValidateAllFlipped(code, types, pos, r.value.children, depth + 1, r.value.end);
      }
    }
  }

  lemma ValidateNext(code: seq<Cell>, types: TypeInfo, pos: nat, depth: nat)
    ensures Validate(code, types, pos, depth) ==
              if pos >= |code| then Err(UnexpectedEnd)
              else if depth + 1 > MAX_RECURSION then Err(RecursionOverflow)
              else
                var r := Fetch(code, types, pos);
                if r.Err? then Err(r.error)
                else ValidateAll(code, types, pos, r.value.children, depth + 1, r.value.end)
  {
    hide Fetch, ValidateAll;
  }

  lemma {:induction false} ValidateAllFlipped(
      code: seq<Cell>, types: TypeInfo, pos: nat, children: seq<nat>, depth: nat, end: nat)
    requires pos <= end < |code| && forall k: nat :: k < |children| ==> pos < children[k]
    ensures ValidateAll(Flipped(code), types, pos, children, depth, end)
            == ValidateAll(code, types, pos, children, depth, end)
    decreases |code| - pos, 0, |children|
  {
    hide Validate, Flipped;
    if children != [] {
      ValidateFlipped(code, types, children[0], depth);
      var r := Validate(code, types, children[0], depth);
      if r.Ok? {
        ValidateAllFlipped(code, types, pos, children[1..], depth, r.value);
      }
    }
  }

  /**
   The code of a dynamic value that a machine of the other byte order wrote: it is read exactly if it is
   valid, as the cells with their bytes swapped, and passed on with its size in this byte order.
   */
  lemma {:induction false} ReadSwappedCode(code: seq<Cell>, rest: seq<Byte>)
    requires |code| < 0x100
    ensures var cells := CellBytes(Flipped(code));
            ReadByteCode([0, |code|] + cells + rest)
            == if ValidDynamicCode(code) then Done((Flipped(code), [|code|, 0] + cells)) else Failed
  {
    hide Validate, WellFormed, LittleEndian, Flipped;
    var n, swapped := |code|, Flipped(code);
    var cells := CellBytes(swapped);
    var data := [0, n] + (cells + rest);
    assert [0, n] + cells + rest == data && data[2..] == cells + rest && data[2..2 + 2 * n] == cells;
    SizeCell(n, data);
    ReadBackCells(swapped, rest);
    ValidateFlipped(code, NoType, 0, 0);
    if 1 <= n <= MAX_BYTE_CODE_SIZE {
      assert ReadCells(data[2..], n) == swapped;
    }
  }

  lemma SizeCell(n: Byte, data: seq<Byte>)
    requires |data| >= 2 && data[0] == 0 && data[1] == n
    ensures ReadCell(data) == 256 * n
    ensures (if ReadCell(data) > 0xFF then Flip(ReadCell(data)) else ReadCell(data)) == n
    ensures LittleEndian(n, 2) == [n, 0]
  {
    assert data[..2][1..] == [n];
    assert FromLittleEndian([n]) == n + 256 * FromLittleEndian([]);
  }

  // ---------------------------------------------------------------------------------------------
  // Single cells and nesting

  /** The codes that stand alone: null, numbers, type codes, any, dynamic, objects, bools and strings. */
  lemma {:induction false} SingleCells(c: Cell)
    ensures Validate([c], NoType, 0, 0).Ok?
            <==> Base(c) in {0, 1, 2, 3, 4, 5, 6, 7, 8, 9, 10, 14, 16, 17, 24, 31, 32}
  {
    var r := Fetch([c], NoType, 0);
    if r.Ok? {
      hide Base;
      if r.value.children != [] {
        ChildIsOutside(c);
      }
    }
  }

  lemma {:induction false} ChildIsOutside(c: Cell)
    requires Fetch([c], NoType, 0).Ok? && Fetch([c], NoType, 0).value.children != []
    ensures Validate([c], NoType, 0, 0) == Err(UnexpectedEnd)
  {
    var instr := Fetch([c], NoType, 0).value;
    assert Validate([c], NoType, instr.children[0], 1) == Err(UnexpectedEnd);
  }

  /** Lists of lists of bytes, n levels deep. */
  function Lists(n: nat): (code: seq<Cell>)
    ensures |code| == n + 1
  {
    seq(n, _ => 12) + [1]
  }

  /** Up to 99 levels of lists around a number are accepted, and up to 31 in front of a dynamic value. */
  lemma {:induction false} NestedLists(n: nat)
    ensures Validate(Lists(n), NoType, 0, 0) == if n < 100 then Ok(n) else Err(RecursionOverflow)
    ensures ValidDynamicCode(Lists(n)) <==> n < 32
  {
    NestedFrom(n, 0);
  }

  lemma {:induction false} NestedFrom(n: nat, pos: nat)
    requires pos <= n && pos <= 100
    ensures Validate(Lists(n), NoType, pos, pos) == if n < 100 then Ok(n) else Err(RecursionOverflow)
    decreases n - pos
  {
    var code := Lists(n);
    if pos < 100 {
      if pos == n {
        assert Fetch(code, NoType, pos) == Ok(Instr(CODE_UINT8, false, [], pos));
      } else {
        assert Fetch(code, NoType, pos) == Ok(Instr(CODE_LIST, false, [pos + 1], pos));
        NestedFrom(n, pos + 1);
        hide Fetch, Lists;
        assert ValidateAll(code, NoType, pos, [pos + 1], pos + 1, pos) == Validate(code, NoType, pos + 1, pos + 1);
      }
    }
  }

  /** The codes an instruction refers to start behind its own cells: offsets, counts and dimensions. */
  lemma {:induction false} BehindOwnCells(code: seq<Cell>, types: TypeInfo, pos: nat, k: nat)
    requires pos < |code| && Fetch(code, types, pos).Ok? && k < |Fetch(code, types, pos).value.children|
    ensures var base, child := Base(code[pos]), Fetch(code, types, pos).value.children[k];
            && (base in {11, 12, 13, 21, 22, 23, 33})
            && (base in {12, 33} ==> child == pos + 1)
            && (base in {11, 13, 22} ==> child >= pos + 2)
            && (base in {11, 22} || (base == 13 && k == 0) ==> child == pos + 2)
            && (base == 13 && k == 1 ==> pos + 3 < |code| && child == pos + Operand(code, code[pos], pos + 1) >= pos + 3)
            && (base == 21 ==> pos + 2 < |code| && child == pos + 2 + Operand(code, code[pos], pos + 1))
            && (base == 23 ==>
                  && pos + 1 < |code| && pos + 2 + k < pos + 2 + Operand(code, code[pos], pos + 1) <= |code|
                  && child == pos + Operand(code, code[pos], pos + 2 + k)
                  && child >= pos + 2 + Operand(code, code[pos], pos + 1))
  {
  }

  // ---------------------------------------------------------------------------------------------
  // More cells, and fewer

  /** Cells behind a code change nothing about it. */
  lemma {:induction false} CodeGoesOn(code: seq<Cell>, more: seq<Cell>, types: TypeInfo, pos: nat)
    requires WellFormed(code, types, pos)
    ensures Fetch(code + more, types, pos) == Fetch(code, types, pos)
    ensures WellFormed(code + more, types, pos) && Last(code + more, types, pos) == Last(code, types, pos)
    decreases |code| - pos
  {
    SameFetch(code, more, types, pos);
    hide Fetch;
    var instr := Fetch(code, types, pos).value;
    forall k: nat | k < |instr.children|
      ensures WellFormed(code + more, types, instr.children[k])
      ensures Last(code + more, types, instr.children[k]) == Last(code, types, instr.children[k])
    {
      CodeGoesOn(code, more, types, instr.children[k]);
    }
  }

  lemma {:induction false} SameFetch(code: seq<Cell>, more: seq<Cell>, types: TypeInfo, pos: nat)
    requires pos < |code| && Fetch(code, types, pos).Ok?
    ensures Fetch(code + more, types, pos) == Fetch(code, types, pos)
  {
    var all := code + more;
    assert forall i: nat :: i < |code| ==> all[i] == code[i];
    if Base(code[pos]) == CODE_TUPLE {
      assert TupleChildren(all, pos) == TupleChildren(code, pos);
    }
  }

  /** A code that was laid out in order is refused if anything is missing at its end. */
  lemma {:induction false} CutShort(code: seq<Cell>, types: TypeInfo, s: Schema, n: nat)
    requires Compiled(types) && Describes(s, types) && code == Flatten(s) && n < |code|
    ensures Validate(code[..n], types, 0, 0).Err?
  {
    hide Validate, WellFormed, Last, Flatten, Describes, Height;
    var front := code[..n];
    ValidateDecides(front, types, 0, 0);
    if Validate(front, types, 0, 0).Ok? {
      assert front + code[n..] == code;
      CodeGoesOn(front, code[n..], types, 0);
      WholeCode(code, types, s);
      assert false;
    }
  }

  lemma {:induction false} WholeCode(code: seq<Cell>, types: TypeInfo, s: Schema)
    requires Compiled(types) && Describes(s, types) && code == Flatten(s)
    ensures WellFormed(code, types, 0) && Last(code, types, 0) == |code| - 1
  {
    hide WellFormed, Last, Flatten, Describes, Decode, Height;
    DecodeFlatten(code, types, 0, s);
  }
}

/**
 `get_value_size` as it runs: sizes are 64-bit numbers, so those of nested arrays can wrap around. No
 value that fits into memory is affected.
 */
module MachineSizes {
  import opened Bytes
  import opened ByteCode
  import opened Schemas
  import opened Wire

  const SIZES: nat := 0x1_0000_0000_0000_0000

  function MachineSize(code: seq<Cell>, types: TypeInfo, pos: nat): nat
    requires WellFormed(code, types, pos)
    decreases |code| - pos, 1, 0
  {
    var c := code[pos];
    var children := Fetch(code, types, pos).value.children;
    if Width(c) > 0 then Width(c)
    else if c == CODE_ARRAY then
      assert WellFormed(code, types, children[0]);
      code[pos + 1] * MachineSize(code, types, children[0]) % SIZES
    else if c == CODE_TUPLE then
      var sum := MachineSum(code, types, pos, children);
      if sum.Some? then sum.value else 0
    else if c == CODE_STRUCT then
      var inner := types.depends[code[pos + 1]];
      if inner.TypeInfo? && inner.equivalent then inner.total % SIZES else 0
    else 0
  }

  /** The loop over a tuple: None if it gives up at an element that seems to have no size. */
  function MachineSum(code: seq<Cell>, types: TypeInfo, pos: nat, children: seq<nat>): Option<nat>
    requires pos < |code|
    requires forall k: nat :: k < |children| ==> pos < children[k] && WellFormed(code, types, children[k])
    decreases |code| - pos, 0, |children|
  {
    if children == [] then Some(0)
    else
      var first, rest := MachineSize(code, types, children[0]), MachineSum(code, types, pos, children[1..]);
      if first == 0 || rest.None? then None else Some((first + rest.value) % SIZES)
  }

  /** Sizes are right exactly if they are numbers of 64 bits. */
  lemma {:induction false} MachineSizeIsSize(code: seq<Cell>, types: TypeInfo, pos: nat)
    requires WellFormed(code, types, pos)
    ensures MachineSize(code, types, pos) == ValueSize(code, types, pos)
            <==> ValueSize(code, types, pos) < 0x1_0000_0000_0000_0000
    decreases |code| - pos, 1, 0
  {
    hide ValueSize, MachineSize;
    if ValueSize(code, types, pos) < SIZES {
      SmallSizes(code, types, pos);
    }
    MachineSizeFits(code, types, pos);
  }

  lemma MachineSizeFits(code: seq<Cell>, types: TypeInfo, pos: nat)
    requires WellFormed(code, types, pos)
    ensures MachineSize(code, types, pos) < SIZES
  {
    hide Fetch, WellFormed, MachineSum;
    if code[pos] == CODE_TUPLE {
      TupleFits(code, types, pos);
    }
  }

  lemma TupleFits(code: seq<Cell>, types: TypeInfo, pos: nat)
    requires WellFormed(code, types, pos) && code[pos] == CODE_TUPLE
    ensures MachineSize(code, types, pos) < SIZES
  {
    hide MachineSize;
    TupleMachineSize(code, types, pos);
  }

  lemma {:induction false} SmallSizes(code: seq<Cell>, types: TypeInfo, pos: nat)
    requires WellFormed(code, types, pos) && ValueSize(code, types, pos) < SIZES
    ensures MachineSize(code, types, pos) == ValueSize(code, types, pos)
    decreases |code| - pos, 1, 0
  {
    hide MachineSum, TupleSize;
    if code[pos] == CODE_ARRAY {
      ArrayValueSize(code, types, pos);
      ArrayMachineSize(code, types, pos);
      hide ValueSize, MachineSize, WellFormed;
      var n, size := code[pos + 1], ValueSize(code, types, pos + 2);
      if n > 0 {
        Grows(n, size);
        SmallSizes(code, types, pos + 2);
      }
      NoWrap(n, size, MachineSize(code, types, pos + 2));
    } else if code[pos] == CODE_TUPLE {
      TupleValueSize(code, types, pos);
      TupleMachineSize(code, types, pos);
      hide ValueSize, MachineSize, WellFormed;
      SmallSums(code, types, pos, TupleChildren(code, pos));
    }
  }

  lemma NoWrap(n: nat, size: nat, machine: nat)
    requires n * size < SIZES && (n == 0 || machine == size)
    ensures n * machine % SIZES == n * size
  {
  }

  lemma Grows(n: nat, size: nat)
    requires n > 0
    ensures size <= n * size
  {
  }

  lemma ArrayMachineSize(code: seq<Cell>, types: TypeInfo, pos: nat)
    requires WellFormed(code, types, pos) && code[pos] == CODE_ARRAY
    ensures pos + 2 < |code| && WellFormed(code, types, pos + 2)
    ensures MachineSize(code, types, pos) == code[pos + 1] * MachineSize(code, types, pos + 2) % SIZES
  {
    ElementCode(code, types, pos);
  }

  lemma TupleMachineSize(code: seq<Cell>, types: TypeInfo, pos: nat)
    requires WellFormed(code, types, pos) && code[pos] == CODE_TUPLE
    ensures pos + 1 < |code| && pos + 2 + code[pos + 1] <= |code|
    ensures forall k: nat :: k < |TupleChildren(code, pos)| ==>
              pos < TupleChildren(code, pos)[k] && WellFormed(code, types, TupleChildren(code, pos)[k])
    ensures var sum := MachineSum(code, types, pos, TupleChildren(code, pos));
            && MachineSize(code, types, pos) == (if sum.Some? then sum.value else 0)
            && MachineSize(code, types, pos) < SIZES
  {
    assert Fetch(code, types, pos).value.children == TupleChildren(code, pos);
    hide MachineSize;
    assert MachineSum(code, types, pos, TupleChildren(code, pos)).Some? ==>
        MachineSum(code, types, pos, TupleChildren(code, pos)).value < SIZES;
  }

  lemma {:induction false} SmallSums(code: seq<Cell>, types: TypeInfo, pos: nat, children: seq<nat>)
    requires pos < |code|
    requires forall k: nat :: k < |children| ==> pos < children[k] && WellFormed(code, types, children[k])
    requires TupleSize(code, types, pos, children) < SIZES
    ensures var sum, size := MachineSum(code, types, pos, children), TupleSize(code, types, pos, children);
            if size > 0 || children == [] then sum == Some(size) else sum.None?
    decreases |code| - pos, 0, |children|
  {
    hide ValueSize, MachineSize, WellFormed;
    if children != [] {
      if TupleSize(code, types, pos, children[1..]) < SIZES {
        SmallSums(code, types, pos, children[1..]);
      }
      if ValueSize(code, types, children[0]) < SIZES {
        SmallSizes(code, types, children[0]);
      }
    }
  }

  /** Every value whose encoding can be in memory takes as many bytes as the size says. */
  lemma {:induction false} EncodingOfMachineSize(code: seq<Cell>, types: TypeInfo, pos: nat, v: Value)
    requires WellFormed(code, types, pos) && Compiled(types) && HasType(Decode(code, types, pos), v)
    requires |Encode(Decode(code, types, pos), v)| < SIZES && MachineSize(code, types, pos) > 0
    ensures |Encode(Decode(code, types, pos), v)| == MachineSize(code, types, pos)
  {
    hide Encode, HasType, FixedSize, ValueSize, MachineSize, Decode, WellFormed, Sound;
    ValueSizeIsFixedSize(code, types, pos);
    DecodeIsSound(code, types, pos);
    MachineSizeIsSize(code, types, pos);
    if ValueSize(code, types, pos) > 0 {
      EncodingOfFixedSize(Decode(code, types, pos), v);
    }
  }
}

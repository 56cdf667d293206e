/**
 When a block of bytes that was received may be taken for an array of native structs: what `match`
 asks for, against where a C++ compiler has put the members.
 */
module MemoryLayouts {
  import opened Bytes
  import opened ByteCode
  import opened Schemas
  import opened Wire
  import opened Types
  import opened TypeCodes

  // ---------------------------------------------------------------------------------------------
  // Consecutive slots

  function Sum(sizes: seq<nat>, n: nat): nat
    requires n <= |sizes|
  {
    if n == 0 then 0 else Sum(sizes, n - 1) + sizes[n - 1]
  }

  /** Where slot i ends: at the start of the next one, or at the end of all. */
  function SlotEnd(starts: seq<nat>, total: nat, i: nat): nat
    requires i < |starts|
  {
    if i + 1 < |starts| then starts[i + 1] else total
  }

  /** Slots from 0 to total, each with room for its size. */
  predicate Slots(starts: seq<nat>, total: nat, sizes: seq<nat>) {
    && |starts| == |sizes|
    && (starts != [] ==> starts[0] == 0)
    && forall i: nat :: i < |starts| ==> starts[i] + sizes[i] <= SlotEnd(starts, total, i)
  }

  /** What comes before a slot and what comes from it on takes at least the sizes. */
  lemma {:induction false} SlotBounds(starts: seq<nat>, total: nat, sizes: seq<nat>, i: nat)
    requires Slots(starts, total, sizes) && i < |starts|
    ensures Sum(sizes, i) <= starts[i]
    ensures starts[i] + (Sum(sizes, |sizes|) - Sum(sizes, i)) <= total
  {
    SlotsBefore(starts, total, sizes, i);
    SlotsAfter(starts, total, sizes, i);
  }

  lemma {:induction false} SlotsBefore(starts: seq<nat>, total: nat, sizes: seq<nat>, i: nat)
    requires Slots(starts, total, sizes) && i < |starts|
    ensures Sum(sizes, i) <= starts[i]
  {
    if i > 0 {
      SlotsBefore(starts, total, sizes, i - 1);
      assert SlotEnd(starts, total, i - 1) == starts[i];
    }
  }

  lemma {:induction false} SlotsAfter(starts: seq<nat>, total: nat, sizes: seq<nat>, i: nat)
    requires Slots(starts, total, sizes) && i < |starts|
    ensures starts[i] + (Sum(sizes, |sizes|) - Sum(sizes, i)) <= total
    decreases |starts| - i
  {
    if i + 1 < |starts| {
      SlotsAfter(starts, total, sizes, i + 1);
      assert Sum(sizes, i + 1) == Sum(sizes, i) + sizes[i];
    }
  }

  lemma {:induction false} SlotFits(starts: seq<nat>, total: nat, sizes: seq<nat>, i: nat)
    requires Slots(starts, total, sizes) && i < |starts|
    ensures starts[i] + sizes[i] <= total
    decreases |starts| - i
  {
    if i + 1 < |starts| {
      SlotFits(starts, total, sizes, i + 1);
    }
  }

  /** If nothing is left over, slots can only be in one place. */
  lemma {:induction false} TightSlots(starts: seq<nat>, total: nat, sizes: seq<nat>, i: nat)
    requires Slots(starts, total, sizes) && total == Sum(sizes, |sizes|) && i < |starts|
    ensures starts[i] == Sum(sizes, i)
  {
    SlotBounds(starts, total, sizes, i);
  }

  // ---------------------------------------------------------------------------------------------
  // Native structs

  /** The sizes of the codes. */
  function CodeSizes(fields: seq<Field>, depends: seq<TypeInfo>): (sizes: seq<nat>)
    requires CodesFit(fields, depends)
    ensures |sizes| == |fields|
  {
    seq(|fields|, i requires 0 <= i < |fields| => ValueSize(fields[i].code, Scope(depends), 0))
  }

  /** A struct type and where its members are in memory; padding may follow any of them. */
  predicate InMemory(native: seq<Field>, depends: seq<TypeInfo>, memory: seq<nat>, nativeSize: nat) {
    CodesFit(native, depends) && Slots(memory, nativeSize, CodeSizes(native, depends))
  }

  /** Fields that have room for their values, as `compile` checks when a size was sent. */
  predicate Roomy(fields: seq<Field>, depends: seq<TypeInfo>) {
    && CodesFit(fields, depends)
    && forall i: nat :: i < |fields| ==> ValueSize(fields[i].code, Scope(depends), 0) <= fields[i].dataSize
  }

  /** The fields of a block are where the members of the struct are. */
  predicate SamePlaces(fields: seq<Field>, memory: seq<nat>) {
    |fields| == |memory| && forall i: nat :: i < |fields| ==> Before(fields, i) == memory[i]
  }

  lemma SettledHasRoom(f: Field, depends: seq<TypeInfo>)
    requires WellFormed(f.code, Scope(depends), 0) && SettledSize(f, depends).Ok? && !f.extended
    requires ValueSize(f.code, Scope(depends), 0) < 0x10000
    ensures ValueSize(f.code, Scope(depends), 0) <= SettledSize(f, depends).value
  {
    hide ValueSize, WellFormed, Validate;
  }

  /** Compiled fields of types that are called equivalent have room unless a size does not fit 16 bits. */
  lemma {:induction false} CompiledIsRoomy(
      sent: seq<Field>, fields: seq<Field>, depends: seq<TypeInfo>, native: seq<Field>, nativeDepends: seq<TypeInfo>,
      nativeIsClass: bool, nativeSize: nat, memory: seq<nat>)
    requires CodesFit(fields, depends) && InMemory(native, nativeDepends, memory, nativeSize) && nativeSize < 0x10000
    requires MemoryEquivalent(fields, depends, native, nativeDepends, nativeIsClass, nativeSize)
    requires SameNames(sent, fields)
    requires forall i: nat :: i < |fields| ==> SettledSize(sent[i], depends) == Ok(fields[i].dataSize)
    ensures Roomy(fields, depends)
  {
    hide EquivalentCode, ValueSize, WellFormed, SettledSize, Before;
    forall i: nat | i < |fields|
      ensures ValueSize(fields[i].code, Scope(depends), 0) <= fields[i].dataSize
    {
      EquivalentSize(fields[i].code, Scope(depends), 0, native[i].code, Scope(nativeDepends), 0);
      SlotFits(memory, nativeSize, CodeSizes(native, nativeDepends), i);
      SettledHasRoom(sent[i], depends);
    }
  }

  /** The blocks of a type that is called equivalent have their fields in consecutive slots. */
  lemma {:induction false} BlockSlots(
      fields: seq<Field>, depends: seq<TypeInfo>, native: seq<Field>, nativeDepends: seq<TypeInfo>,
      nativeIsClass: bool, nativeSize: nat)
    requires Roomy(fields, depends) && CodesFit(native, nativeDepends)
    requires MemoryEquivalent(fields, depends, native, nativeDepends, nativeIsClass, nativeSize)
    ensures var starts := seq(|fields|, i requires 0 <= i < |fields| => Before(fields, i));
            Slots(starts, nativeSize, CodeSizes(native, nativeDepends))
  {
    hide EquivalentCode, ValueSize, WellFormed;
    forall i: nat | i < |fields|
      ensures ValueSize(native[i].code, Scope(nativeDepends), 0) <= fields[i].dataSize
      ensures Before(fields, i + 1) == Before(fields, i) + fields[i].dataSize
    {
      EquivalentSize(fields[i].code, Scope(depends), 0, native[i].code, Scope(nativeDepends), 0);
    }
  }

  /**
   A struct without padding can be read as a block: whatever sizes were sent, a type that `match`
   calls equivalent has every field where the struct has its member.
   */
  lemma {:induction false} EquivalentLayout(
      fields: seq<Field>, depends: seq<TypeInfo>, native: seq<Field>, nativeDepends: seq<TypeInfo>,
      nativeIsClass: bool, nativeSize: nat, memory: seq<nat>)
    requires Roomy(fields, depends) && InMemory(native, nativeDepends, memory, nativeSize)
    requires MemoryEquivalent(fields, depends, native, nativeDepends, nativeIsClass, nativeSize)
    requires nativeSize == Sum(CodeSizes(native, nativeDepends), |native|)
    ensures SamePlaces(fields, memory)
  {
    hide EquivalentCode, ValueSize, WellFormed;
    BlockSlots(fields, depends, native, nativeDepends, nativeIsClass, nativeSize);
    var starts := seq(|fields|, i requires 0 <= i < |fields| => Before(fields, i));
    forall i: nat | i < |fields|
      ensures Before(fields, i) == memory[i]
    {
      TightSlots(starts, nativeSize, CodeSizes(native, nativeDepends), i);
      TightSlots(memory, nativeSize, CodeSizes(native, nativeDepends), i);
    }
  }

  /**
   With padding it depends on the sizes that were sent: a type that is called equivalent has its fields
   in the right places exactly if each field takes as much as the member with the padding behind it.
   */
  lemma {:induction false} SamePlacesExactly(
      fields: seq<Field>, depends: seq<TypeInfo>, native: seq<Field>, nativeDepends: seq<TypeInfo>,
      nativeIsClass: bool, nativeSize: nat, memory: seq<nat>)
    requires CodesFit(fields, depends) && InMemory(native, nativeDepends, memory, nativeSize)
    requires MemoryEquivalent(fields, depends, native, nativeDepends, nativeIsClass, nativeSize)
    ensures SamePlaces(fields, memory)
            <==> forall i: nat :: i < |fields| ==> FillsSlot(fields, memory, nativeSize, i)
  {
    hide EquivalentCode, ValueSize, WellFormed, Before, SamePlaces, FillsSlot;
    if SamePlaces(fields, memory) {
      PlacesFill(fields, memory, nativeSize);
    }
    if forall i: nat :: i < |fields| ==> FillsSlot(fields, memory, nativeSize, i) {
      FilledPlaces(fields, memory, nativeSize);
    }
  }

  /** A field takes as much as the member with the padding behind it. */
  predicate FillsSlot(fields: seq<Field>, memory: seq<nat>, nativeSize: nat, i: nat)
    requires i < |fields| == |memory|
  {
    memory[i] + fields[i].dataSize == SlotEnd(memory, nativeSize, i)
  }

  /** Fields that are where the members are fill their slots. */
  lemma {:induction false} PlacesFill(fields: seq<Field>, memory: seq<nat>, nativeSize: nat)
    requires SamePlaces(fields, memory) && Before(fields, |fields|) == nativeSize
    requires forall k: nat :: k < |fields| ==> !fields[k].extended
    ensures forall i: nat :: i < |fields| ==> FillsSlot(fields, memory, nativeSize, i)
  {
    forall i: nat | i < |fields|
      ensures FillsSlot(fields, memory, nativeSize, i)
    {
      NextField(fields, i);
      hide Before;
      assert i + 1 < |fields| ==> Before(fields, i + 1) == memory[i + 1];
    }
  }

  lemma NextField(fields: seq<Field>, i: nat)
    requires i < |fields| && !fields[i].extended
    ensures Before(fields, i + 1) == Before(fields, i) + fields[i].dataSize
  {
  }

  /** Fields that fill their slots are where the members are. */
  lemma {:induction false} FilledPlaces(fields: seq<Field>, memory: seq<nat>, nativeSize: nat)
    requires |fields| == |memory| && (memory != [] ==> memory[0] == 0)
    requires forall k: nat :: k < |fields| ==> !fields[k].extended && FillsSlot(fields, memory, nativeSize, k)
    ensures SamePlaces(fields, memory)
  {
    hide Before, FillsSlot;
    forall i: nat | i < |fields|
      ensures Before(fields, i) == memory[i]
    {
      SlotsReached(fields, memory, nativeSize, i);
    }
  }

  lemma {:induction false} SlotsReached(fields: seq<Field>, memory: seq<nat>, nativeSize: nat, i: nat)
    requires |fields| == |memory| && i < |fields| && memory[0] == 0
    requires forall k: nat :: k < |fields| ==> !fields[k].extended && FillsSlot(fields, memory, nativeSize, k)
    ensures Before(fields, i) == memory[i]
  {
    hide FillsSlot, Before;
    if i == 0 {
      NoneBefore(fields);
    } else {
      SlotsReached(fields, memory, nativeSize, i - 1);
      NextField(fields, i - 1);
      SlotReached(fields, memory, nativeSize, i - 1);
    }
  }

  lemma NoneBefore(fields: seq<Field>)
    ensures Before(fields, 0) == 0
  {
  }

  lemma SlotReached(fields: seq<Field>, memory: seq<nat>, nativeSize: nat, i: nat)
    requires i + 1 < |fields| == |memory| && FillsSlot(fields, memory, nativeSize, i)
    ensures memory[i] + fields[i].dataSize == memory[i + 1]
  {
  }

  // ---------------------------------------------------------------------------------------------
  // Which structs are safe

  /** What is equivalent to something is equivalent to itself. */
  lemma {:induction false} EquivalentToItself(
      a: seq<Cell>, at: TypeInfo, i: nat, b: seq<Cell>, bt: TypeInfo, j: nat)
    requires WellFormed(a, at, i) && WellFormed(b, bt, j) && EquivalentCode(a, at, i, b, bt, j)
    ensures EquivalentCode(b, bt, j, b, bt, j)
    decreases |a| - i, 1, 0
  {
    if AlikeNumbers(a[i], b[j]) {
      assert AlikeNumbers(b[j], b[j]);
    } else if a[i] == CODE_ARRAY {
      ElementCode(a, at, i);
      ElementCode(b, bt, j);
      EquivalentToItself(a, at, i + 2, b, bt, j + 2);
    } else {
      AllEquivalentToThemselves(
        a, at, i, Fetch(a, at, i).value.children, b, bt, j, Fetch(b, bt, j).value.children);
    }
  }

  lemma {:induction false} AllEquivalentToThemselves(
      a: seq<Cell>, at: TypeInfo, i: nat, ca: seq<nat>, b: seq<Cell>, bt: TypeInfo, j: nat, cb: seq<nat>)
    requires i < |a| && j < |b|
    requires forall k: nat :: k < |ca| ==> i < ca[k] && WellFormed(a, at, ca[k])
    requires forall k: nat :: k < |cb| ==> j < cb[k] && WellFormed(b, bt, cb[k])
    requires EquivalentAll(a, at, i, ca, b, bt, j, cb)
    ensures EquivalentAll(b, bt, j, cb, b, bt, j, cb)
    decreases |a| - i, 0, |ca|
  {
    hide EquivalentCode, WellFormed;
    if ca != [] && cb != [] {
      EquivalentToItself(a, at, ca[0], b, bt, cb[0]);
      AllEquivalentToThemselves(a, at, i, ca[1..], b, bt, j, cb[1..]);
    }
  }

  /** A struct of numbers, arrays and tuples, all in its block: something can be equivalent to it. */
  predicate Plain(native: seq<Field>, depends: seq<TypeInfo>)
    requires CodesFit(native, depends)
  {
    forall i: nat :: i < |native| ==>
      !native[i].extended && EquivalentCode(native[i].code, Scope(depends), 0, native[i].code, Scope(depends), 0)
  }

  /** Every type that `match` calls equivalent to the struct has its fields in the right places. */
  ghost predicate SafeAsBlock(
      native: seq<Field>, nativeDepends: seq<TypeInfo>, nativeSize: nat, memory: seq<nat>)
    requires CodesFit(native, nativeDepends)
  {
    forall fields: seq<Field>, depends: seq<TypeInfo> ::
      Roomy(fields, depends) && MemoryEquivalent(fields, depends, native, nativeDepends, false, nativeSize) ==>
        SamePlaces(fields, memory)
  }

  /** The native fields, with all padding behind field k. */
  function PaddedAt(native: seq<Field>, sizes: seq<nat>, padding: nat, k: nat): (fields: seq<Field>)
    requires |sizes| == |native|
    ensures |fields| == |native|
  {
    seq(|native|, i requires 0 <= i < |native| => native[i].(dataSize := sizes[i] + if i == k then padding else 0))
  }

  lemma {:induction false} PaddedBefore(native: seq<Field>, sizes: seq<nat>, padding: nat, k: nat, n: nat)
    requires |sizes| == |native| && n <= |native| && forall i: nat :: i < |native| ==> !native[i].extended
    ensures Before(PaddedAt(native, sizes, padding, k), n) == Sum(sizes, n) + if k < n then padding else 0
  {
    if n > 0 {
      PaddedBefore(native, sizes, padding, k, n - 1);
    }
  }

  /** Wherever the padding is, the type is called equivalent. */
  lemma {:induction false} PaddedIsEquivalent(
      native: seq<Field>, depends: seq<TypeInfo>, nativeSize: nat, padding: nat, k: nat)
    requires CodesFit(native, depends) && Plain(native, depends) && k < |native|
    requires nativeSize == Sum(CodeSizes(native, depends), |native|) + padding
    ensures var fields := PaddedAt(native, CodeSizes(native, depends), padding, k);
            Roomy(fields, depends) && MemoryEquivalent(fields, depends, native, depends, false, nativeSize)
  {
    hide EquivalentCode, ValueSize, WellFormed;
    PaddedBefore(native, CodeSizes(native, depends), padding, k, |native|);
  }

  /**
   Structs of numbers are safe to read as blocks exactly if they have no padding, or a single member;
   structs with anything else in them are never read as blocks.
   */
  lemma {:induction false} SafeExactlyIfUnpadded(
      native: seq<Field>, depends: seq<TypeInfo>, nativeSize: nat, memory: seq<nat>)
    requires InMemory(native, depends, memory, nativeSize)
    ensures SafeAsBlock(native, depends, nativeSize, memory)
            <==> || nativeSize == Sum(CodeSizes(native, depends), |native|)
                 || |native| <= 1 || !Plain(native, depends)
  {
    hide EquivalentCode, ValueSize, WellFormed, MemoryEquivalent, Plain;
    var sizes := CodeSizes(native, depends);
    if |native| > 1 && Plain(native, depends) && nativeSize != Sum(sizes, |sizes|) {
      PaddingMoves(native, depends, nativeSize, memory);
    } else {
      forall fields: seq<Field>, more: seq<TypeInfo> |
        Roomy(fields, more) && MemoryEquivalent(fields, more, native, depends, false, nativeSize)
        ensures SamePlaces(fields, memory)
      {
        EquivalentIsPlain(fields, more, native, depends, nativeSize);
        if |native| > 1 {
          EquivalentLayout(fields, more, native, depends, false, nativeSize, memory);
        }
      }
    }
  }

  lemma {:induction false} EquivalentIsPlain(
      fields: seq<Field>, depends: seq<TypeInfo>, native: seq<Field>, nativeDepends: seq<TypeInfo>, nativeSize: nat)
    requires Roomy(fields, depends) && CodesFit(native, nativeDepends)
    requires MemoryEquivalent(fields, depends, native, nativeDepends, false, nativeSize)
    ensures Plain(native, nativeDepends) && |fields| == |native|
  {
    hide EquivalentCode, ValueSize, WellFormed;
    forall i: nat | i < |native|
      ensures !native[i].extended
      ensures EquivalentCode(native[i].code, Scope(nativeDepends), 0, native[i].code, Scope(nativeDepends), 0)
    {
      EquivalentToItself(fields[i].code, Scope(depends), 0, native[i].code, Scope(nativeDepends), 0);
    }
  }

  /** Padding behind the first field and padding behind the last one cannot both be right. */
  lemma {:induction false} PaddingMoves(
      native: seq<Field>, depends: seq<TypeInfo>, nativeSize: nat, memory: seq<nat>)
    requires InMemory(native, depends, memory, nativeSize) && Plain(native, depends) && |native| > 1
    requires nativeSize != Sum(CodeSizes(native, depends), |native|)
    ensures !SafeAsBlock(native, depends, nativeSize, memory)
  {
    hide EquivalentCode, ValueSize, WellFormed;
    var sizes, last := CodeSizes(native, depends), |native| - 1;
    SlotBounds(memory, nativeSize, sizes, 0);
    var padding := nativeSize - Sum(sizes, |sizes|);
    PaddedIsEquivalent(native, depends, nativeSize, padding, 0);
    PaddedIsEquivalent(native, depends, nativeSize, padding, last);
    PaddedBefore(native, sizes, padding, 0, 1);
    PaddedBefore(native, sizes, padding, last, 1);
    hide Before;
    assert !SamePlaces(PaddedAt(native, sizes, padding, 0), memory)
        || !SamePlaces(PaddedAt(native, sizes, padding, last), memory);
  }

  // ---------------------------------------------------------------------------------------------
  // An example

  /** The codes of a byte and of a 16-bit number. */
  lemma SmallNumbers()
    ensures var types := Scope([]);
            forall c :: c in {CODE_UINT8, CODE_UINT16} ==>
              && WellFormed([c], types, 0) && Validate([c], types, 0, 0).Ok? && ValueSize([c], types, 0) == Width(c)
              && EquivalentCode([c], types, 0, [c], types, 0)
  {
    var types := Scope([]);
    forall c | c in {CODE_UINT8, CODE_UINT16}
      ensures WellFormed([c], types, 0) && Validate([c], types, 0, 0).Ok? && ValueSize([c], types, 0) == Width(c)
              && EquivalentCode([c], types, 0, [c], types, 0)
    {
      assert Base(c) == c;
      assert Fetch([c], types, 0) == Ok(Instr(c, false, [], 0));
      assert WellFormed([c], types, 0);
    }
  }

  /**
   `struct { uint8_t x; uint16_t y; }` has y at offset 2 and takes 4 bytes. A type that was sent with
   the sizes 1 and 3 compiles, is called equivalent, and has y at offset 1.
   */
  lemma EquivalentWithPadding()
    ensures
      var native := [Field("x", [CODE_UINT8], 1, false, 0, 0, -1), Field("y", [CODE_UINT16], 2, false, 1, 1, -1)];
      var fields := [Field("x", [CODE_UINT8], 1, false, 0, 0, -1), Field("y", [CODE_UINT16], 3, false, 1, 1, -1)];
      && Compiles(native, []) && Compiles(fields, []) && CodesFit(fields, []) && InMemory(native, [], [0, 2], 4)
      && MemoryEquivalent(fields, [], native, [], false, 4) && Before(fields, 1) == 1
  {
    var native := [Field("x", [CODE_UINT8], 1, false, 0, 0, -1), Field("y", [CODE_UINT16], 2, false, 1, 1, -1)];
    var fields := [Field("x", [CODE_UINT8], 1, false, 0, 0, -1), Field("y", [CODE_UINT16], 3, false, 1, 1, -1)];
    SmallNumbers();
    hide WellFormed, Validate, ValueSize, EquivalentCode;
    assert Width(CODE_UINT8) == 1 && Width(CODE_UINT16) == 2;
    assert Before(fields, 1) == 1 && Before(fields, 2) == 4;
    assert CodesFit(native, []) && CodeSizes(native, []) == [1, 2];
  }
}

/**
 Reading an integer of one type as another, as schema evolution allows: `read_value` converts the
 number that was sent, in either byte order, to the type of the member.
 */
module Conversions {
  import opened Bytes
  import opened ByteCode
  import opened Schemas
  import opened Wire
  import opened CopyLaws
  import opened Ordering
  import opened CompareLaws
  import opened Variants
  import opened TypeCodes

  /** Integer codes of either byte order. */
  predicate IsInteger(kind: Cell) {
    IsNumber(Base(kind))
  }

  predicate IsNative(kind: Cell) {
    IsNumber(kind) && !IsAlt(kind)
  }

  function WidthOf(kind: Cell): nat {
    Width(Base(kind))
  }

  function Reversed(bytes: seq<Byte>): (r: seq<Byte>)
    ensures |r| == |bytes|
  {
    if bytes == [] then [] else Reversed(bytes[1..]) + [bytes[0]]
  }

  lemma {:induction false} ReversedTwice(bytes: seq<Byte>)
    ensures Reversed(Reversed(bytes)) == bytes
  {
    if bytes != [] {
      ReversedTwice(bytes[1..]);
      ReversedAppend(Reversed(bytes[1..]), bytes[0]);
    }
  }

  lemma {:induction false} ReversedAppend(bytes: seq<Byte>, b: Byte)
    ensures Reversed(bytes + [b]) == [b] + Reversed(bytes)
  {
    if bytes != [] {
      ReversedAppend(bytes[1..], b);
      assert (bytes + [b])[1..] == bytes[1..] + [b];
    }
  }

  /** The number in bytes of either byte order. */
  function NumberIn(kind: Cell, bytes: seq<Byte>): int {
    Number(Base(kind), if IsAlt(kind) then Reversed(bytes) else bytes)
  }

  /** The numbers of a type. */
  predicate InRange(kind: Cell, n: int) {
    if Base(kind) == CODE_BOOL then 0 <= n <= 1
    else if IsSigned(kind) then FitsSigned(n, WidthOf(kind))
    else 0 <= n < Pow256(WidthOf(kind))
  }

  /** A number written as that type. */
  function WriteNumber(kind: Cell, n: int): (bytes: seq<Byte>)
    requires IsInteger(kind) && InRange(kind, n)
    ensures |bytes| == WidthOf(kind)
  {
    Pow256Values();
    var bytes := TwosComplement(n, WidthOf(kind));
    if IsAlt(kind) then Reversed(bytes) else bytes
  }

  /** `T(tmp)`: anything but 0 is true, and other types keep as many bits as they have. */
  function Cast(t: Cell, n: int): int {
    if Base(t) == CODE_BOOL then if n == 0 then 0 else 1
    else
      var size := Pow256(WidthOf(t));
      var m := n % size;
      if IsSigned(t) && 2 * m >= size then m - size else m
  }

  /** m is in the given range and differs from n by a multiple of its length. */
  predicate Wrapped(n: int, m: int, low: int, high: int)
    requires low < high
  {
    low <= m < high && (n - m) % (high - low) == 0
  }

  /** What C++ makes of a number n that is converted to type t: the m of that type with the same lowest bits. */
  predicate Becomes(t: Cell, n: int, m: int) {
    if t == CODE_BOOL then m == if n == 0 then 0 else 1
    else if t == CODE_UINT8 then Wrapped(n, m, 0, 0x100)
    else if t == CODE_UINT16 then Wrapped(n, m, 0, 0x10000)
    else if t == CODE_UINT32 then Wrapped(n, m, 0, 0x1_0000_0000)
    else if t == CODE_UINT64 then Wrapped(n, m, 0, 0x1_0000_0000_0000_0000)
    else if t == CODE_INT8 then Wrapped(n, m, -0x80, 0x80)
    else if t == CODE_INT16 then Wrapped(n, m, -0x8000, 0x8000)
    else if t == CODE_INT32 then Wrapped(n, m, -0x8000_0000, 0x8000_0000)
    else t == CODE_INT64 && Wrapped(n, m, -0x8000_0000_0000_0000, 0x8000_0000_0000_0000)
  }

  /** There is only one such number, and it is n itself exactly if the type has n. */
  lemma {:induction false} BecomesOne(t: Cell, n: int, m: int, k: int)
    requires IsNative(t) && Becomes(t, n, m) && Becomes(t, n, k)
    ensures m == k && (m == n <==> InRange(t, n))
  {
    Pow256Values();
    Pow256Large();
    hide Pow256;
    if t != CODE_BOOL {
      OneInRange(n, m, k, Pow256(WidthOf(t)));
      if InRange(t, n) {
        OneInRange(n, m, n, Pow256(WidthOf(t)));
      }
    }
  }

  lemma {:induction false} OneInRange(n: int, m: int, k: int, size: nat)
    requires size > 0 && (n - m) % size == 0 && (n - k) % size == 0
    ensures 0 - size < m - k < size ==> m == k
  {
    var x, y := (n - m) / size, (n - k) / size;
    Quotient(n - m, size);
    Quotient(n - k, size);
    var q := y - x;
    assert m - k == q * size by {
      Distribute(y, x, size);
    }
    if q >= 1 {
      AtLeast(q, size);
    } else if q <= -1 {
      AtLeast(-q, size);
      Negated(q, size);
    }
  }

  lemma Distribute(x: int, y: int, size: nat)
    ensures (x - y) * size == x * size - y * size
  {
  }

  /** A conversion keeps the lowest bits, and so exactly the numbers the type has. */
  lemma {:induction false} CastKeepsExactly(t: Cell, n: int)
    requires IsNative(t)
    ensures Becomes(t, n, Cast(t, n))
    ensures InRange(t, Cast(t, n)) && (Cast(t, n) == n <==> InRange(t, n))
  {
    Pow256Values();
    Pow256Large();
    hide Pow256;
    Wraps(n, Pow256(WidthOf(t)));
    Congruent(n, Pow256(WidthOf(t)));
  }

  lemma {:induction false} Congruent(n: int, size: nat)
    requires size > 0
    ensures (n - n % size) % size == 0 && (n - (n % size - size)) % size == 0
  {
    var q := n / size;
    Quotient(n, size);
    Multiple(q, size);
    Multiple(q + 1, size);
    assert (q + 1) * size == q * size + size;
  }

  lemma Multiple(q: int, size: nat)
    requires size > 0
    ensures (q * size) % size == 0
  {
    var r, d := q * size % size, q * size / size;
    Quotient(q * size, size);
    Distribute(q, d, size);
    SmallMultiple(q - d, size, r);
  }

  lemma SmallMultiple(m: int, size: nat, r: int)
    requires m * size == r && 0 <= r < size
    ensures r == 0
  {
    if m >= 1 {
      AtLeast(m, size);
    } else if m <= -1 {
      Negated(m, size);
      AtLeast(-m, size);
      assert false;
    }
  }

  lemma Negated(m: int, size: nat)
    ensures m * size == -(-m * size)
  {
  }

  lemma Wraps(n: int, size: nat)
    requires size > 0
    ensures var m := n % size;
            var s := if 2 * m >= size then m - size else m;
            && 0 <= m < size && (m == n <==> 0 <= n < size)
            && 0 <= 2 * s + size < 2 * size && (s == n <==> 0 <= 2 * n + size < 2 * size)
  {
    var q, m := n / size, n % size;
    Quotient(n, size);
    hide *;
    if q >= 1 {
      AtLeast(q, size);
    } else if q <= -2 {
      AtLeast(-q - 1, size);
      assert q * size == -((-q - 1) * size) - size;
    }
  }

  lemma Quotient(n: int, size: nat)
    requires size > 0
    ensures n == n / size * size + n % size && 0 <= n % size < size
  {
  }

  lemma AtLeast(q: nat, size: nat)
    requires q >= 1
    ensures q * size >= size
  {
  }

  /** `read_value` of a single integer: the converted number and the bytes it took. */
  function ReadValue(t: Cell, kind: Cell, buf: seq<Byte>): (r: (int, nat))
    requires IsInteger(kind) && |buf| >= WidthOf(kind)
    ensures r.1 == WidthOf(kind)
  {
    (Cast(t, NumberIn(kind, buf[..WidthOf(kind)])), WidthOf(kind))
  }

  /** What was written, in either byte order, is what is read. */
  lemma {:induction false} WrittenIsRead(kind: Cell, n: int)
    requires IsInteger(kind) && InRange(kind, n)
    ensures NumberIn(kind, WriteNumber(kind, n)) == n
  {
    hide LittleEndian, FromLittleEndian;
    Pow256Values();
    var bytes := TwosComplement(n, WidthOf(kind));
    ReversedTwice(bytes);
    BaseOfBase(kind);
    if Base(kind) == CODE_BOOL {
      ReadInteger(n, 1, []);
      assert LittleEndian(n, 1) + [] == LittleEndian(n, 1);
    } else {
      ReadBackNumber(Base(kind), n);
    }
  }

  lemma BaseOfBase(kind: Cell)
    requires IsInteger(kind)
    ensures !IsAlt(Base(kind)) && Base(Base(kind)) == Base(kind) && IsSigned(Base(kind)) == IsSigned(kind)
  {
  }

  /**
   A number that was written as one integer type and is read as another, whatever the byte order: it
   arrives exactly if the type of the member has it, and otherwise as its lowest bits.
   */
  lemma {:induction false} IntegersComeThrough(kind: Cell, t: Cell, n: int, rest: seq<Byte>)
    requires IsInteger(kind) && IsNative(t) && InRange(kind, n)
    ensures var r := ReadValue(t, kind, WriteNumber(kind, n) + rest);
            && Becomes(t, n, r.0) && r.0 == Cast(t, n) && (r.0 == n <==> InRange(t, n))
            && r.1 == |WriteNumber(kind, n)|
  {
    WrittenIsRead(kind, n);
    CastKeepsExactly(t, n);
    assert (WriteNumber(kind, n) + rest)[..WidthOf(kind)] == WriteNumber(kind, n);
  }

  /** 300 read as a single byte, whatever the byte order, is 256 less. */
  lemma ThreeHundred(rest: seq<Byte>)
    ensures ReadValue(CODE_UINT8, CODE_UINT16, [44, 1] + rest) == (44, 2)
    ensures ReadValue(CODE_UINT8, Flip(CODE_UINT16), [1, 44] + rest) == (44, 2)
  {
    hide ReadValue, Cast;
    TwoBytesRead(CODE_UINT8, CODE_UINT16, 44, 1, rest);
    TwoBytesRead(CODE_UINT8, Flip(CODE_UINT16), 1, 44, rest);
    CastToByte(300);
  }

  lemma CastToByte(n: int)
    ensures Cast(CODE_UINT8, n) == n % 256
  {
    Pow256Values();
  }

  lemma {:induction false} TwoBytesRead(t: Cell, kind: Cell, a: Byte, b: Byte, rest: seq<Byte>)
    requires Base(kind) == CODE_UINT16 || Base(kind) == CODE_INT16
    ensures var n := if IsAlt(kind) then b + 256 * a else a + 256 * b;
            ReadValue(t, kind, [a, b] + rest)
            == (Cast(t, if IsSigned(kind) && n >= 0x8000 then n - 0x10000 else n), 2)
  {
    hide Cast;
    Pow256Values();
    assert ([a, b] + rest)[..2] == [a, b];
    assert [a, b][1..] == [b] && Reversed([b]) == [b] && Reversed([a, b]) == [b, a];
    TwoBytes(a, b);
    TwoBytes(b, a);
  }

  lemma TwoBytes(low: Byte, high: Byte)
    ensures FromLittleEndian([low, high]) == low + 256 * high
  {
    assert [low, high][1..] == [high];
    SingleByte([high]);
  }

  // ---------------------------------------------------------------------------------------------
  // Static arrays

  /** Item i of an array that was sent, if it is there. */
  function ItemAt(kind: Cell, buf: seq<Byte>, i: nat): seq<Byte> {
    var at := i * WidthOf(kind);
    if at + WidthOf(kind) <= |buf| then buf[at..at + WidthOf(kind)] else []
  }

  lemma ItemIsThere(kind: Cell, buf: seq<Byte>, size: nat, i: nat)
    requires |buf| >= size * WidthOf(kind) && i < size
    ensures var at := i * WidthOf(kind);
            && at + WidthOf(kind) == (i + 1) * WidthOf(kind) && at + WidthOf(kind) <= |buf|
            && ItemAt(kind, buf, i) == buf[at..][..WidthOf(kind)] && |ItemAt(kind, buf, i)| == WidthOf(kind)
  {
    assert (i + 1) * WidthOf(kind) <= size * WidthOf(kind);
  }

  /** A boolean that was not written as 0 or 1. */
  predicate IsOddBool(t: Cell, kind: Cell, bytes: seq<Byte>) {
    Base(kind) == CODE_BOOL && Base(t) != CODE_BOOL && |bytes| == 1 && bytes[0] > 1
  }

  /** Taking the bytes as they are is converting the number, exactly unless it is an odd boolean. */
  lemma {:induction false} AlikeIsCast(t: Cell, kind: Cell, bytes: seq<Byte>)
    requires IsNative(t) && IsInteger(kind) && AlikeNumbers(t, kind) && |bytes| == WidthOf(kind)
    ensures WidthOf(t) == WidthOf(kind)
    ensures Number(t, bytes) == Cast(t, NumberIn(kind, bytes)) <==> !IsOddBool(t, kind, bytes)
  {
    hide FromLittleEndian;
    Pow256Values();
    assert |bytes| == 1 ==> Reversed(bytes) == bytes;
    var n, size := FromLittleEndian(bytes), Pow256(|bytes|);
    if |bytes| == 1 {
      SingleByte(bytes);
    }
    SignedCast(n, size);
  }

  lemma SingleByte(bytes: seq<Byte>)
    requires |bytes| == 1
    ensures FromLittleEndian(bytes) == bytes[0]
  {
    assert FromLittleEndian(bytes[1..]) == 0;
  }

  lemma SignedCast(n: nat, size: nat)
    requires n < size
    ensures n % size == n && (n - size) % size == n
  {
  }

  /** Arrays of the same size and equivalent elements are taken as they are. */
  predicate IsTaken(t: Cell, N: nat, kind: Cell, size: nat) {
    size == N && AlikeNumbers(t, kind)
  }

  /** Element i of an array that was read: taken or converted, or 0 if nothing was sent for it. */
  function ElementOf(t: Cell, N: nat, kind: Cell, size: nat, buf: seq<Byte>, i: nat): int {
    if i >= size then 0
    else if IsTaken(t, N, kind, size) then Number(t, ItemAt(kind, buf, i))
    else Cast(t, NumberIn(kind, ItemAt(kind, buf, i)))
  }

  /** Elements that were sent are converted, exactly unless they are odd booleans that were taken as they are. */
  lemma {:induction false} ElementsAreCast(t: Cell, N: nat, kind: Cell, size: nat, buf: seq<Byte>, i: nat)
    requires IsNative(t) && IsInteger(kind) && |buf| >= size * WidthOf(kind) && i < size
    ensures ElementOf(t, N, kind, size, buf, i) == Cast(t, NumberIn(kind, ItemAt(kind, buf, i)))
            <==> !(IsTaken(t, N, kind, size) && IsOddBool(t, kind, ItemAt(kind, buf, i)))
  {
    hide Cast, NumberIn, Number, ItemAt;
    ItemIsThere(kind, buf, size, i);
    if IsTaken(t, N, kind, size) {
      AlikeIsCast(t, kind, ItemAt(kind, buf, i));
    }
  }

  /** Numbers written one after the other. */
  function WriteNumbers(kind: Cell, numbers: seq<int>): (bytes: seq<Byte>)
    requires IsInteger(kind) && forall n :: n in numbers ==> InRange(kind, n)
    ensures |bytes| == |numbers| * WidthOf(kind)
  {
    if numbers == [] then []
    else
      Next(|numbers|, WidthOf(kind));
      WriteNumber(kind, numbers[0]) + WriteNumbers(kind, numbers[1..])
  }

  lemma Next(n: nat, width: nat)
    requires n > 0
    ensures n * width == width + (n - 1) * width
  {
  }

  lemma {:induction false} ItemWritten(kind: Cell, numbers: seq<int>, rest: seq<Byte>, i: nat)
    requires IsInteger(kind) && (forall n :: n in numbers ==> InRange(kind, n)) && i < |numbers|
    ensures ItemAt(kind, WriteNumbers(kind, numbers) + rest, i) == WriteNumber(kind, numbers[i])
  {
    hide WriteNumber, InRange, IsInteger, WidthOf, ItemAt;
    var first, more := WriteNumber(kind, numbers[0]), WriteNumbers(kind, numbers[1..]) + rest;
    assert WriteNumbers(kind, numbers) + rest == first + more;
    hide WriteNumbers;
    if i == 0 {
      FirstItem(kind, first, more);
    } else {
      ItemWritten(kind, numbers[1..], rest, i - 1);
      ItemBehind(kind, first, more, i);
    }
  }

  lemma FirstItem(kind: Cell, first: seq<Byte>, more: seq<Byte>)
    requires |first| == WidthOf(kind)
    ensures ItemAt(kind, first + more, 0) == first
  {
  }

  lemma ItemBehind(kind: Cell, first: seq<Byte>, more: seq<Byte>, i: nat)
    requires |first| == WidthOf(kind) && i > 0
    ensures ItemAt(kind, first + more, i) == ItemAt(kind, more, i - 1)
  {
    Next(i, WidthOf(kind));
    hide WidthOf;
    Behind(first, more, (i - 1) * WidthOf(kind), WidthOf(kind));
  }

  lemma Behind(first: seq<Byte>, more: seq<Byte>, at: nat, width: nat)
    requires |first| == width
    ensures |first + more| >= width + at + width ==>
              (first + more)[width + at..width + at + width] == more[at..at + width]
  {
  }

  /** Every element of an array that was written is read as what it becomes, and missing ones are 0. */
  lemma {:induction false} ArraysComeThrough(
      kind: Cell, t: Cell, numbers: seq<int>, N: nat, rest: seq<Byte>, i: nat)
    requires IsInteger(kind) && IsNative(t) && (forall n :: n in numbers ==> InRange(kind, n)) && i < N
    ensures var value := ElementOf(t, N, kind, |numbers|, WriteNumbers(kind, numbers) + rest, i);
            if i < |numbers| then Becomes(t, numbers[i], value) else value == 0
  {
    hide Cast, Becomes, NumberIn, Number, ItemAt, WriteNumbers, IsTaken;
    if i < |numbers| {
      var n := numbers[i];
      ItemWritten(kind, numbers, rest, i);
      ElementsAreCast(t, N, kind, |numbers|, WriteNumbers(kind, numbers) + rest, i);
      WrittenIsRead(kind, n);
      CastKeepsExactly(t, n);
      BoolIsWritten(kind, n);
    }
  }

  lemma BoolIsWritten(kind: Cell, n: int)
    requires IsInteger(kind) && InRange(kind, n)
    ensures Base(kind) == CODE_BOOL ==> |WriteNumber(kind, n)| == 1 && WriteNumber(kind, n)[0] <= 1
  {
    hide LittleEndian;
    if Base(kind) == CODE_BOOL {
      Pow256Values();
      SingleByte(LittleEndian(n, 1));
      ReadBackInteger(n, 1);
      assert |LittleEndian(n, 1)| == 1;
      var b := LittleEndian(n, 1);
      assert Reversed(b[1..]) == [] && Reversed(b) == [b[0]];
    }
  }

  /**
   `read_value` of an array of N integers: the elements both have are converted, missing ones are 0, and
   the bytes of all elements that were sent are used up.
   */
  method ReadArray(t: Cell, N: nat, kind: Cell, size: nat, buf: seq<Byte>) returns (values: seq<int>, offset: nat)
    requires IsNative(t) && IsInteger(kind) && |buf| >= size * WidthOf(kind)
    ensures |values| == N && offset == size * WidthOf(kind)
    ensures forall i: nat :: i < N ==> values[i] == ElementOf(t, N, kind, size, buf, i)
  {
    if IsTaken(t, N, kind, size) {
      values := TakeArray(t, N, kind, buf);
      offset := N * WidthOf(kind);
    } else {
      values, offset := ConvertArray(t, N, kind, size, buf);
    }
  }

  /** The bytes as they are. */
  method TakeArray(t: Cell, N: nat, kind: Cell, buf: seq<Byte>) returns (values: seq<int>)
    requires IsInteger(kind) && IsTaken(t, N, kind, N) && |buf| >= N * WidthOf(kind)
    ensures |values| == N && forall i: nat :: i < N ==> values[i] == ElementOf(t, N, kind, N, buf, i)
  {
    hide Cast, NumberIn, Number, ItemAt, IsInteger, IsTaken;
    values := [];
    while |values| < N
      invariant |values| <= N && forall i: nat :: i < |values| ==> values[i] == ElementOf(t, N, kind, N, buf, i)
    {
      values := values + [Number(t, ItemAt(kind, buf, |values|))];
    }
  }

  /** One element after the other. */
  method ConvertArray(t: Cell, N: nat, kind: Cell, size: nat, buf: seq<Byte>)
    returns (values: seq<int>, offset: nat)
    requires IsInteger(kind) && !IsTaken(t, N, kind, size) && |buf| >= size * WidthOf(kind)
    ensures |values| == N && offset == size * WidthOf(kind)
    ensures forall i: nat :: i < N ==> values[i] == ElementOf(t, N, kind, size, buf, i)
  {
    hide Cast, NumberIn, ItemAt, IsInteger, IsTaken;
    values, offset := [], 0;
    var i := 0;
    while i < size && i < N
      invariant 0 <= i && i <= size && i <= N && |values| == i && offset == i * WidthOf(kind)
      invariant forall k: nat :: k < i ==> values[k] == ElementOf(t, N, kind, size, buf, k)
    {
      ItemIsThere(kind, buf, size, i);
      var (value, used) := ReadValue(t, kind, buf[offset..]);
      values, offset := values + [value], offset + used;
      i := i + 1;
    }
    while i < size
      invariant |values| <= i <= size && offset == i * WidthOf(kind)
    {
      ItemIsThere(kind, buf, size, i);
      var (_, used) := ReadValue(t, kind, buf[offset..]);
      offset := offset + used;
      i := i + 1;
    }
    while |values| < N
      invariant |values| <= N && |values| >= if size < N then size else N
      invariant forall k: nat :: k < |values| ==> values[k] == ElementOf(t, N, kind, size, buf, k)
    {
      values := values + [0];
    }
  }
}

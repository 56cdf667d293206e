/** How many bytes numbers take, and what the head of every other value looks like, byte by byte. */
module WireFormat {
  import opened Bytes
  import opened ByteCode
  import opened Schemas
  import opened Wire
  import opened CopySpec
  import opened CopyLaws
  import opened Types
  import opened TypeCodes

  /** The codes of numbers with the bytes each takes; a single byte has no byte order. */
  predicate Takes(kind: Cell, width: nat) {
    match width
    case 1 => kind in {CODE_BOOL, CODE_UINT8, CODE_INT8, 0x1F00, 0x100, 0x500}
    case 2 => kind in {CODE_UINT16, CODE_INT16}
    case 4 => kind in {CODE_UINT32, CODE_INT32, CODE_FLOAT}
    case 8 => kind in {CODE_UINT64, CODE_INT64, CODE_DOUBLE}
    case _ => false
  }

  lemma WidthIsTaken(kind: Cell, width: nat)
    ensures Takes(kind, width) ==> Width(kind) == width
    ensures Width(kind) > 0 ==> Takes(kind, Width(kind))
  {
  }

  /** Two numbers are laid out alike exactly if they have one size and are of one code or both integers. */
  lemma AlikeExactly(a: Cell, n: nat, b: Cell, m: nat)
    requires Takes(a, n) && Takes(b, m)
    ensures AlikeNumbers(a, b)
            <==> n == m && (a == b || (a !in {CODE_FLOAT, CODE_DOUBLE} && b !in {CODE_FLOAT, CODE_DOUBLE}))
  {
  }

  /** The code of a number is valid by itself and stands for that number. */
  lemma {:induction false} NumberIsDecoded(kind: Cell, width: nat, types: TypeInfo)
    requires Takes(kind, width) && Compiled(types)
    ensures Validate([kind], types, 0, 0) == Ok(0) && WellFormed([kind], types, 0)
    ensures Decode([kind], types, 0) == Prim(kind)
    ensures ValueSize([kind], types, 0) == width && FixedSize(Prim(kind)) == width
  {
    var code := [kind];
    NumberIsFetched(kind, width, types);
    hide Fetch, Width, Takes, Base;
    ValidateDecides(code, types, 0, 0);
    assert DecodeAll(code, types, 0, []) == [];
    assert Decode(code, types, 0) == Build(code, 0, Fetch(code, types, 0).value, []);
  }

  lemma NumberIsFetched(kind: Cell, width: nat, types: TypeInfo)
    requires Takes(kind, width)
    ensures Fetch([kind], types, 0) == Ok(Instr(Base(kind), IsAlt(kind), [], 0)) && Width(kind) == width > 0
    ensures Base(kind) != CODE_STRUCT && Base(kind) != CODE_NULL
    ensures kind != CODE_ARRAY && kind != CODE_TUPLE && kind != CODE_STRUCT
  {
  }

  /** No other single cell has a size. */
  lemma {:induction false} OnlyNumbersHaveSizes(c: Cell, types: TypeInfo)
    requires WellFormed([c], types, 0)
    ensures ValueSize([c], types, 0) > 0 ==> Takes(c, ValueSize([c], types, 0))
  {
    if c == CODE_ARRAY {
      ElementCode([c], types, 0);
      assert false;
    }
  }

  /**
   A number takes exactly its bytes: every sequence of that many bytes is a value, no other value is,
   copying passes all of them on and leaves the rest, and with fewer bytes it fails.
   */
  lemma {:induction false} NumberOnTheWire(kind: Cell, width: nat, v: Value, bytes: seq<Byte>, rest: seq<Byte>, depth: nat)
    requires Takes(kind, width) && |bytes| == width && depth < MAX_RECURSION
    ensures HasType(Prim(kind), v) <==> v.Raw? && |v.bytes| == width
    ensures HasType(Prim(kind), Raw(bytes)) && Encode(Prim(kind), Raw(bytes)) == bytes
    ensures Copy(Prim(kind), bytes + rest, depth) == Done(Copied(width, bytes))
    ensures |rest| < width ==> Copy(Prim(kind), rest, depth) == Failed
  {
    NumberHasType(kind, width, v);
    NumberHasType(kind, width, Raw(bytes));
    assert EncodeItems([], Raw(bytes), 0) == [];
    assert (bytes + rest)[..width] == bytes;
    assert bytes + [] == bytes;
    CopyNumberBytes(kind, bytes + rest, depth);
    CopyNumberBytes(kind, rest, depth);
  }

  lemma NumberHasType(kind: Cell, width: nat, v: Value)
    requires Takes(kind, width)
    ensures HasType(Prim(kind), v) <==> v.Raw? && |v.bytes| == width
  {
  }

  lemma {:induction false} CopyNumberBytes(kind: Cell, data: seq<Byte>, depth: nat)
    requires depth < MAX_RECURSION
    ensures Copy(Prim(kind), data, depth)
            == if |data| < Width(kind) then Failed else Done(Copied(Width(kind), data[..Width(kind)]))
  {
    assert Copy(Prim(kind), data, depth) == CopyInside(Prim(kind), data, depth + 1);
    if |data| >= Width(kind) {
      var h := ReadHead(Prim(kind), data).value;
      assert CopyItems([], 0, 0, data[h.size..], depth + 1) == Done(Copied(0, []));
      assert h.out + [] == h.out;
    }
  }

  /** Integers are numbers of that width, least significant byte first. */
  lemma {:induction false} IntegerOnTheWire(kind: Cell, width: nat, n: nat, rest: seq<Byte>, depth: nat)
    requires Takes(kind, width) && depth < MAX_RECURSION
    ensures HasType(Prim(kind), Raw(LittleEndian(n, width)))
    ensures Copy(Prim(kind), LittleEndian(n, width) + rest, depth) == Done(Copied(width, LittleEndian(n, width)))
    ensures forall k: nat :: k < width ==> LittleEndian(n, width)[k] == n / Pow256(k) % 256
  {
    NumberOnTheWire(kind, width, Raw([]), LittleEndian(n, width), rest, depth);
    forall k: nat | k < width
      ensures LittleEndian(n, width)[k] == n / Pow256(k) % 256
    {
      ByteOfInteger(n, width, k);
    }
  }

  lemma {:induction false} ByteOfInteger(n: nat, width: nat, k: nat)
    requires k < width
    ensures LittleEndian(n, width)[k] == n / Pow256(k) % 256
  {
    if k > 0 {
      ByteOfInteger(n / 256, width - 1, k - 1);
      DivideTwice(n, Pow256(k - 1));
    }
  }

  lemma DivideTwice(n: nat, p: nat)
    requires p > 0
    ensures n / 256 / p == n / (256 * p)
  {
    var q, r := n / 256 / p, n / 256 % p;
    var d := 256 * p;
    assert n / 256 == q * p + r && n == 256 * (n / 256) + n % 256;
    assert n == d * q + (256 * r + n % 256) by {
      Regrouped(q, p);
    }
    assert 256 * r + n % 256 < d;
    QuotientIs(n, d, q, 256 * r + n % 256);
  }

  lemma Regrouped(q: nat, p: nat)
    ensures 256 * (q * p) == 256 * p * q
  {
  }

  lemma QuotientIs(n: nat, d: nat, q: nat, r: nat)
    requires r < d && n == d * q + r
    ensures n / d == q
  {
    var k := n / d;
    var s := n % d;
    assert n == d * k + s && 0 <= s < d;
    if k > q {
      More(d, q, k);
    } else if k < q {
      More(d, k, q);
    }
  }

  lemma More(d: nat, q: nat, k: nat)
    requires q < k
    ensures d * k >= d * q + d
  {
    Distributed(d, q, k - q);
    AtLeastOnce(d, k - q);
  }

  lemma Distributed(d: nat, q: nat, m: nat)
    ensures d * (q + m) == d * q + d * m
  {
  }

  lemma AtLeastOnce(d: nat, m: nat)
    requires m > 0
    ensures d * m >= d
  {
  }

  /** Arrays and lists of numbers. */
  lemma {:induction false} NumbersOnTheWire(kind: Cell, width: nat, n: Cell, v: Value)
    requires Takes(kind, width)
    ensures FixedSize(Arr(n, Prim(kind))) == n * width
    ensures HasType(Arr(n, Prim(kind)), v) ==> |Encode(Arr(n, Prim(kind)), v)| == n * width
    ensures HasType(Lst(Prim(kind)), v) ==> |Encode(Lst(Prim(kind)), v)| == 4 + |ItemsOf(v)| * width
  {
    if HasType(Arr(n, Prim(kind)), v) || HasType(Lst(Prim(kind)), v) {
      RunOfFixedSize(Prim(kind), v, 0);
    }
  }

  /**
   An array of doubles as a primitive field: 16 bits are kept of its size, so an array of 8192 of them is
   refused as empty, and one of 8193 gets 8 bytes.
   */
  lemma {:induction false} ArrayField(f: Field, n: Cell)
    requires f.code == [CODE_ARRAY, n, CODE_DOUBLE] && f.dataSize == 0 && !f.extended
    ensures var k: nat := n;
            SettledSize(f, []) == if k % 8192 == 0 then Err(InvalidPrimitiveField) else Ok(8 * k % 0x10000)
  {
    var k: nat := n;
    var types := Scope([]);
    assert Fetch(f.code, types, 2) == Ok(Instr(CODE_DOUBLE, false, [], 2));
    assert Fetch(f.code, types, 0) == Ok(Instr(CODE_ARRAY, false, [2], 0));
    ArrayIsValid(f.code, types);
    hide Fetch, Validate, WellFormed, ValueSize;
    assert 8 * k % 0x10000 == 0 <==> k % 8192 == 0;
  }

  lemma {:induction false} ArrayIsValid(code: seq<Cell>, types: TypeInfo)
    requires |code| == 3 && code[0] == CODE_ARRAY && code[2] == CODE_DOUBLE
    requires Fetch(code, types, 2) == Ok(Instr(CODE_DOUBLE, false, [], 2))
    requires Fetch(code, types, 0) == Ok(Instr(CODE_ARRAY, false, [2], 0))
    ensures Validate(code, types, 0, 0).Ok? && WellFormed(code, types, 0)
    ensures var n: nat := code[1]; ValueSize(code, types, 0) == 8 * n
  {
    hide Fetch;
    assert WellFormed(code, types, 2) && WellFormed(code, types, 0);
    assert Height(code, types, 2) == 1;
    assert MaxHeight(code, types, 0, [2]) == 1;
    ValidateDecides(code, types, 0, 0);
    assert ValueSize(code, types, 2) == 8;
  }

  /** A 32-bit integer. */
  function Size32(n: nat): (b: seq<Byte>)
  {
    [n % 256, n / 0x100 % 256, n / 0x10000 % 256, n / 0x100_0000 % 256]
  }

  lemma {:induction false} FourBytes(n: nat)
    ensures LittleEndian(n, 4) == Size32(n)
  {
    Pow256Values();
    assert Pow256(3) == 256 * Pow256(2);
    forall k: nat | k < 4
      ensures LittleEndian(n, 4)[k] == Size32(n)[k]
    {
      ByteOfInteger(n, 4, k);
    }
  }

  lemma {:induction false} TwoBytes(n: nat)
    ensures LittleEndian(n, 2) == [n % 256, n / 0x100 % 256]
  {
    Pow256Values();
    ByteOfInteger(n, 2, 0);
    ByteOfInteger(n, 2, 1);
  }

  /** What stands in front of the items of a value: sizes, counts and flags. */
  lemma {:induction false} HeadsOnTheWire(s: Schema, v: Value)
    requires Fits(s, v)
    ensures s.Str? ==> HeadOf(s, v) == Size32(|v.bytes|) + v.bytes
    ensures s.Lst? ==> HeadOf(s, v) == Size32(|v.items|)
    ensures s.Assoc? || s.Obj? ==> HeadOf(s, v) == Size32(|v.items| / 2)
    ensures s.Opt? ==> HeadOf(s, v) == if v.items == [] then [0] else [1]
    ensures s.Arr? || s.Tup? || s.Mat? || s.Null? ==> HeadOf(s, v) == []
    ensures s.Struct? ==> HeadOf(s, v) == v.block
  {
    hide LittleEndian, DimBytes, CellBytes, ValidDynamicCode, Product, Size32;
    match s
    case Str => FourBytes(|v.bytes|);
    case Lst(_) => FourBytes(|v.items|);
    case Assoc(_, _) => FourBytes(|v.items| / 2);
    case Obj => FourBytes(|v.items| / 2);
    case _ =>
  }

  /** The dimensions of an image. */
  lemma {:induction false} ImageOnTheWire(s: Schema, v: Value, k: nat)
    requires Fits(s, v) && s.Img? && k < |v.dims|
    ensures |HeadOf(s, v)| == 4 * |v.dims| && HeadOf(s, v)[4 * k..4 * k + 4] == Size32(v.dims[k])
  {
    DimOnTheWire(v.dims, k);
  }

  /** The code in front of a dynamic value. */
  lemma {:induction false} DynamicOnTheWire(v: Value, k: nat)
    requires Fits(Dyn, v) && k < |v.code|
    ensures var head := HeadOf(Dyn, v);
            && |head| == 2 + 2 * |v.code| && head[..2] == [|v.code|, 0]
            && head[2 + 2 * k..4 + 2 * k] == [v.code[k] % 256, v.code[k] / 256]
  {
    hide LittleEndian, Validate;
    TwoBytes(|v.code|);
    CellOnTheWire(v.code, k);
    var cells := CellBytes(v.code);
    assert (LittleEndian(|v.code|, 2) + cells)[2 + 2 * k..4 + 2 * k] == cells[2 * k..2 * k + 2];
  }

  lemma {:induction false} DimOnTheWire(dims: seq<nat>, k: nat)
    requires k < |dims|
    ensures DimBytes(dims)[4 * k..4 * k + 4] == Size32(dims[k])
  {
    var first, more := LittleEndian(dims[0], 4), DimBytes(dims[1..]);
    FourBytes(dims[0]);
    hide LittleEndian, Size32;
    if k > 0 {
      DimOnTheWire(dims[1..], k - 1);
      SliceBehind(first, more, 4 * (k - 1), 4);
    }
  }

  lemma {:induction false} CellOnTheWire(code: seq<Cell>, k: nat)
    requires k < |code|
    ensures CellBytes(code)[2 * k..2 * k + 2] == [code[k] % 256, code[k] / 256]
  {
    var first, more := LittleEndian(code[0], 2), CellBytes(code[1..]);
    TwoBytes(code[0]);
    hide LittleEndian;
    if k > 0 {
      CellOnTheWire(code[1..], k - 1);
      SliceBehind(first, more, 2 * (k - 1), 2);
    }
  }

  lemma SliceBehind(first: seq<Byte>, more: seq<Byte>, at: nat, n: nat)
    requires at + n <= |more|
    ensures (first + more)[|first| + at..|first| + at + n] == more[at..at + n]
  {
  }

  // ---------------------------------------------------------------------------------------------
  // Items

  /** The items of a map are keys and values in turn, those of an object strings and dynamic values. */
  lemma {:induction false} MapItems(key: Schema, value: Schema, items: seq<Value>)
    requires |items| % 2 == 0 && |items| / 2 <= MAX_SIZE
    ensures HasType(Assoc(key, value), Items(items))
            <==> forall i: nat :: i < |items| ==> HasType(if i % 2 == 0 then key else value, items[i])
    ensures HasType(Obj, Items(items))
            <==> forall i: nat :: i < |items| ==> HasType(if i % 2 == 0 then Str else Dyn, items[i])
  {
    var v := Items(items);
    assert forall i: nat :: i < |items| ==> Part([key, value], i) == if i % 2 == 0 then key else value;
    assert forall i: nat :: i < |items| ==> Part([Str, Dyn], i) == if i % 2 == 0 then Str else Dyn;
    assert ItemsOf(v) == items && Parts(Assoc(key, value), v) == [key, value] && Parts(Obj, v) == [Str, Dyn];
  }

  /** The items of a tuple are its members, those of other containers all of one kind. */
  lemma {:induction false} OtherItems(elems: seq<Schema>, elem: Schema, items: seq<Value>)
    requires |items| <= MAX_SIZE
    ensures HasType(Tup(elems), Items(items))
            <==> |items| == |elems| && forall i: nat :: i < |items| ==> HasType(elems[i], items[i])
    ensures HasType(Lst(elem), Items(items)) <==> forall i: nat :: i < |items| ==> HasType(elem, items[i])
  {
    var v := Items(items);
    assert |items| == |elems| ==> forall i: nat :: i < |items| ==> Part(elems, i) == elems[i];
    assert forall i: nat :: i < |items| ==> Part([elem], i) == elem;
    assert ItemsOf(v) == items && Parts(Tup(elems), v) == elems && Parts(Lst(elem), v) == [elem];
  }

  /** A matrix or image has as many elements as its dimensions multiply to. */
  lemma {:induction false} ProductLaws(a: seq<nat>, b: seq<nat>, n: nat)
    ensures Product([]) == 1 && Product([n]) == n && Product(a + b) == Product(a) * Product(b)
  {
    assert Product([n]) == n * Product([]);
    if a == [] {
      assert a + b == b;
    } else {
      ProductLaws(a[1..], b, n);
      assert (a + b)[1..] == a[1..] + b;
      Associative(a[0], Product(a[1..]), Product(b));
    }
  }

  lemma Associative(x: nat, y: nat, z: nat)
    ensures x * (y * z) == x * y * z
  {
  }
}

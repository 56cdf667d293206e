/**
 What `calc_hash` feeds to the hash: the bytes of numbers and strings in order, without sizes and
 codes. The hash itself is a function of what it is fed.
 */
module HashSpec {
  import opened Bytes
  import opened ByteCode
  import opened Schemas
  import opened Wire
  import opened CopySpec
  import opened CopyLaws
  import opened Ordering
  import opened CompareSpec
  import opened CompareLaws
  import opened CompareDynamics
  import opened Variants

  datatype Fed = Fed(bytes: seq<Byte>, rest: seq<Byte>)

  function FedThen(bytes: seq<Byte>, r: Outcome<Fed>): Outcome<Fed> {
    if r.Done? then Done(Fed(bytes + r.value.bytes, r.value.rest)) else r
  }

  /** `calc_hash`, called at the given recursion depth. */
  function Feed(s: Schema, data: seq<Byte>, depth: nat): Outcome<Fed>
    decreases if depth <= MAX_RECURSION then MAX_RECURSION + 1 - depth else 0, 1, 0
  {
    if depth + 1 > MAX_RECURSION then Failed else FeedInside(s, data, depth + 1)
  }

  function FeedInside(s: Schema, data: seq<Byte>, depth: nat): Outcome<Fed>
    requires depth <= MAX_RECURSION
    decreases MAX_RECURSION + 1 - depth, 3, 0
  {
    match s
    case Prim(kind) => FeedBytes(Width(kind), data)
    case Str => if |data| < 4 then Failed else FeedBytes(OneInteger(data), data[4..])
    case Arr(size, elem) => FeedArray(elem, size, data, depth)
    case Lst(elem) => if |data| < 4 then Failed else FeedArray(elem, OneInteger(data), data[4..], depth)
    case Assoc(key, value) =>
      if |data| < 4 then Failed else FeedItems([key, value], 0, 2 * OneInteger(data), data[4..], depth)
    case Mat(dims, elem) => FeedArray(elem, Product(dims), data, depth)
    case Img(rank, elem) =>
      if |data| < 4 * rank then Failed
      else FeedArray(elem, Product(ReadDims(data, rank)), data[4 * rank..], depth)
    case Tup(elems) => FeedItems(elems, 0, |elems|, data, depth)
    case Obj => Feed(Assoc(Str, Dyn), data, depth)
    case Opt(elem) =>
      if |data| < 1 then Failed
      else if data[0] != 0 then Feed(elem, data[1..], depth)
      else Done(Fed([], data[1..]))
    case Dyn =>
      var r := ReadByteCode(data);
      if !r.Done? then Failed else Feed(Decode(r.value.0, NoType, 0), data[|r.value.1|..], depth)
    case Foreign => Outside
    case Any => Outside
    case _ => Done(Fed(LittleEndian(KindCode(s), 2), data))
  }

  function FeedBytes(n: nat, data: seq<Byte>): Outcome<Fed> {
    if |data| < n then Failed else Done(Fed(data[..n], data[n..]))
  }

  /** `calc_hash_array`: single bytes are fed all at once. */
  function FeedArray(elem: Schema, n: nat, data: seq<Byte>, depth: nat): Outcome<Fed>
    requires depth <= MAX_RECURSION
    decreases MAX_RECURSION + 1 - depth, 2, 0
  {
    if elem.Prim? && IsByteSized(elem.kind) then FeedBytes(n, data) else FeedItems([elem], 0, n, data, depth)
  }

  function FeedItems(parts: seq<Schema>, i: nat, n: nat, data: seq<Byte>, depth: nat): Outcome<Fed>
    requires i <= n
    decreases if depth <= MAX_RECURSION then MAX_RECURSION + 1 - depth else 0, 1, 1 + n - i
  {
    if i == n then Done(Fed([], data))
    else
      var first := Feed(Part(parts, i), data, depth);
      if !first.Done? then first
      else FedThen(first.value.bytes, FeedItems(parts, i + 1, n, first.value.rest, depth))
  }

  /** The bytes of the numbers and strings in a value. */
  function Leaves(s: Schema, v: Value): seq<Byte>
    decreases v, 1
  {
    match s
    case Null => LittleEndian(CODE_NULL, 2)
    case Prim(_) => if v.Raw? then v.bytes else []
    case Str => if v.Raw? then v.bytes else []
    case _ => LeavesOfItems(Parts(s, v), v, 0)
  }

  function LeavesOfItems(parts: seq<Schema>, v: Value, i: nat): seq<Byte>
    requires i <= |ItemsOf(v)|
    decreases v, 0, |ItemsOf(v)| - i
  {
    if i == |ItemsOf(v)| then [] else Leaves(Part(parts, i), ItemsOf(v)[i]) + LeavesOfItems(parts, v, i + 1)
  }

  /** A value without structs. */
  predicate Hashable(s: Schema, v: Value)
    decreases v
  {
    && HasType(s, v) && !s.Struct?
    && forall i: nat :: i < |ItemsOf(v)| ==> Hashable(Part(Parts(s, v), i), ItemsOf(v)[i])
  }

  /** How many levels of `calc_hash` are enough. */
  function Levels(s: Schema, v: Value): nat
    decreases v, 1
  {
    1 + Extra(s) + LevelsOfItems(Parts(s, v), v, 0)
  }

  function LevelsOfItems(parts: seq<Schema>, v: Value, i: nat): nat
    requires i <= |ItemsOf(v)|
    decreases v, 0, |ItemsOf(v)| - i
  {
    if i == |ItemsOf(v)| then 0
    else Max(Levels(Part(parts, i), ItemsOf(v)[i]), LevelsOfItems(parts, v, i + 1))
  }

  /** Hashing an encoded value feeds its leaves in order and stops at its end. */
  lemma {:induction false} FeedEncoded(s: Schema, v: Value, rest: seq<Byte>, depth: nat)
    requires Hashable(s, v) && depth + Levels(s, v) <= MAX_RECURSION
    ensures Feed(s, Encode(s, v) + rest, depth) == Done(Fed(Leaves(s, v), rest))
    decreases v, 3
  {
    hide Feed, FeedInside, Encode, EncodeItems, HasType, HeadOf, Parts, Leaves, LeavesOfItems, LevelsOfItems;
    FeedUnfold(s, Encode(s, v) + rest, depth);
    EncodingParts(s, v, rest);
    if s.Null? || s.Prim? || s.Str? {
      FeedLeaf(s, v, rest, depth + 1);
    } else if s.Dyn? || s.Opt? {
      FeedWrapped(s, v, rest, depth + 1);
    } else {
      FeedPartsEncoded(s, v, rest, depth + 1);
    }
  }

  /** Dynamic and optional values. */
  lemma {:induction false} FeedWrapped(s: Schema, v: Value, rest: seq<Byte>, depth: nat)
    requires Hashable(s, v) && depth - 1 + Levels(s, v) <= MAX_RECURSION && 1 <= depth <= MAX_RECURSION
    requires s.Dyn? || s.Opt?
    ensures FeedInside(s, Encode(s, v) + rest, depth) == Done(Fed(Leaves(s, v), rest))
    decreases v, 2
  {
    hide Feed, Encode, ReadByteCode, HasType;
    var d := Datum(s, v);
    assert Typed(d);
    WrapperRead(d, rest);
    WrapperLeaves(s, v);
    WrittenHeld(d);
    if ItemsOf(v) != [] {
      FeedEncoded(Part(Parts(s, v), 0), ItemsOf(v)[0], rest, depth);
    } else {
      NothingWritten();
      assert [] + rest == rest;
    }
  }

  lemma {:induction false} WrapperLeaves(s: Schema, v: Value)
    requires Hashable(s, v) && (s.Dyn? || s.Opt?)
    ensures |ItemsOf(v)| <= 1 && (s.Dyn? ==> |ItemsOf(v)| == 1)
    ensures ItemsOf(v) == [] ==> Leaves(s, v) == [] && s.Opt? && HeadOf(s, v) == [0]
    ensures ItemsOf(v) != [] ==>
              var part, item := Part(Parts(s, v), 0), ItemsOf(v)[0];
              && Leaves(s, v) == Leaves(part, item) && Levels(s, v) == 1 + Levels(part, item) && Hashable(part, item)
              && Held(Datum(s, v)) == Datum(part, item) && (s.Opt? ==> HeadOf(s, v) == [1])
  {
    var parts := Parts(s, v);
    hide Decode, WellFormed;
    if ItemsOf(v) == [] {
      assert LeavesOfItems(parts, v, 0) == [];
    } else {
      assert LeavesOfItems(parts, v, 1) == [] && LevelsOfItems(parts, v, 1) == 0;
      LeavesNext(parts, v, 0);
      hide Leaves, Levels;
      assert LevelsOfItems(parts, v, 0) == Levels(Part(parts, 0), ItemsOf(v)[0]);
    }
  }

  lemma FeedUnfold(s: Schema, data: seq<Byte>, depth: nat)
    requires depth + 1 <= MAX_RECURSION
    ensures Feed(s, data, depth) == FeedInside(s, data, depth + 1)
  {
    hide FeedInside;
  }

  lemma {:induction false} FeedLeaf(s: Schema, v: Value, rest: seq<Byte>, depth: nat)
    requires HasType(s, v) && (s.Null? || s.Prim? || s.Str?) && depth <= MAX_RECURSION
    ensures FeedInside(s, HeadOf(s, v) + (EncodeItems(Parts(s, v), v, 0) + rest), depth)
            == Done(Fed(Leaves(s, v), rest))
  {
    NoItems(s, v, v, rest);
    hide EncodeItems;
    if s.Str? {
      StringAt(v.bytes, rest);
      var data := HeadOf(s, v) + rest;
      assert data[4..][..|v.bytes|] == v.bytes && data[4..][|v.bytes|..] == rest;
    } else {
      assert (HeadOf(s, v) + rest)[..|HeadOf(s, v)|] == HeadOf(s, v) && (HeadOf(s, v) + rest)[|HeadOf(s, v)|..] == rest;
    }
  }

  lemma {:induction false} FeedPartsEncoded(s: Schema, v: Value, rest: seq<Byte>, depth: nat)
    requires Hashable(s, v) && depth - 1 + Levels(s, v) <= MAX_RECURSION && 1 <= depth <= MAX_RECURSION
    requires !s.Null? && !s.Prim? && !s.Str? && !s.Dyn? && !s.Opt?
    requires forall k: nat :: k < |ItemsOf(v)| ==> HasType(Part(Parts(s, v), k), ItemsOf(v)[k])
    ensures FeedInside(s, HeadOf(s, v) + (EncodeItems(Parts(s, v), v, 0) + rest), depth)
            == Done(Fed(Leaves(s, v), rest))
    decreases v, 2
  {
    hide Feed, FeedInside, FeedItems, FeedArray, Encode, EncodeItems, HasType, HeadOf, LeavesOfItems, LevelsOfItems;
    HashableKinds(s, v);
    var parts := Parts(s, v);
    var data := EncodeItems(parts, v, 0) + rest;
    FeedHead(s, v, data, depth);
    if Bulk(s) {
      FeedArrayEncoded(s.elem, v, rest, depth);
    } else {
      FeedItemsEncoded(parts, v, 0, rest, depth + Extra(s));
    }
  }

  lemma HashableKinds(s: Schema, v: Value)
    requires Hashable(s, v) && !s.Null? && !s.Prim? && !s.Str? && !s.Dyn? && !s.Opt?
    ensures Fits(s, v) && (Bulk(s) || s.Assoc? || s.Tup? || s.Obj?)
    ensures Bulk(s) ==> Parts(s, v) == [s.elem]
    ensures forall k: nat :: k < |ItemsOf(v)| ==> Hashable(Part(Parts(s, v), k), ItemsOf(v)[k])
  {
  }

  /** Behind its head a value is an array of elements or a run of items. */
  lemma {:induction false} FeedHead(s: Schema, v: Value, data: seq<Byte>, depth: nat)
    requires Fits(s, v) && (Bulk(s) || s.Assoc? || s.Tup? || s.Obj?) && depth + Extra(s) <= MAX_RECURSION
    ensures FeedInside(s, HeadOf(s, v) + data, depth) ==
              if Bulk(s) then FeedArray(s.elem, |ItemsOf(v)|, data, depth)
              else FeedItems(Parts(s, v), 0, |ItemsOf(v)|, data, depth + Extra(s))
  {
    hide Feed, FeedItems, FeedArray, Product, ReadDims, DimBytes;
    Pow256Values();
    assert [] + data == data;
    match s
    case Lst(_) => ReadInteger(|v.items|, 4, data);
    case Assoc(_, _) => ReadInteger(|v.items| / 2, 4, data);
    case Obj =>
      ReadInteger(|v.items| / 2, 4, data);
      FeedUnfold(Assoc(Str, Dyn), HeadOf(s, v) + data, depth);
    case Img(_, _) => ReadBackDims(v.dims, data);
    case _ =>
  }

  lemma {:induction false} FeedArrayEncoded(elem: Schema, v: Value, rest: seq<Byte>, depth: nat)
    requires depth + LevelsOfItems([elem], v, 0) <= MAX_RECURSION
    requires forall k: nat :: k < |ItemsOf(v)| ==> Hashable(Part([elem], k), ItemsOf(v)[k])
    requires forall k: nat :: k < |ItemsOf(v)| ==> HasType(Part([elem], k), ItemsOf(v)[k])
    ensures FeedArray(elem, |ItemsOf(v)|, EncodeItems([elem], v, 0) + rest, depth)
            == Done(Fed(LeavesOfItems([elem], v, 0), rest))
    decreases v, 1
  {
    hide Feed, FeedItems, Encode, EncodeItems, HasType, Hashable, LeavesOfItems, LevelsOfItems;
    if elem.Prim? && IsByteSized(elem.kind) {
      BytesAreLeaves(elem.kind, v, 0);
      var items := EncodeItems([elem], v, 0);
      assert (items + rest)[..|items|] == items && (items + rest)[|items|..] == rest;
    } else {
      FeedItemsEncoded([elem], v, 0, rest, depth);
    }
  }

  lemma {:induction false} BytesAreLeaves(kind: Cell, v: Value, i: nat)
    requires IsByteSized(kind) && i <= |ItemsOf(v)|
    requires forall k: nat :: i <= k < |ItemsOf(v)| ==> HasType(Part([Prim(kind)], k), ItemsOf(v)[k])
    ensures |EncodeItems([Prim(kind)], v, i)| == |ItemsOf(v)| - i
    ensures EncodeItems([Prim(kind)], v, i) == LeavesOfItems([Prim(kind)], v, i)
    decreases |ItemsOf(v)| - i
  {
    if i < |ItemsOf(v)| {
      EncodedNumber(kind, ItemsOf(v)[i], []);
      NumberIsLeaf(kind, ItemsOf(v)[i]);
      hide Encode, HasType;
      BytesAreLeaves(kind, v, i + 1);
    }
  }

  lemma NumberIsLeaf(kind: Cell, v: Value)
    requires HasType(Prim(kind), v)
    ensures Encode(Prim(kind), v) == v.bytes == Leaves(Prim(kind), v) && |v.bytes| == Width(kind)
  {
    assert EncodeItems([], v, 0) == [];
  }

  lemma {:induction false} FeedItemsEncoded(parts: seq<Schema>, v: Value, i: nat, rest: seq<Byte>, depth: nat)
    requires i <= |ItemsOf(v)| && depth + LevelsOfItems(parts, v, i) <= MAX_RECURSION
    requires forall k: nat :: i <= k < |ItemsOf(v)| ==> Hashable(Part(parts, k), ItemsOf(v)[k])
    requires forall k: nat :: i <= k < |ItemsOf(v)| ==> HasType(Part(parts, k), ItemsOf(v)[k])
    ensures FeedItems(parts, i, |ItemsOf(v)|, EncodeItems(parts, v, i) + rest, depth)
            == Done(Fed(LeavesOfItems(parts, v, i), rest))
    decreases v, 0, |ItemsOf(v)| - i
  {
    hide Feed, FeedItems, Encode, EncodeItems, HasType, Hashable, Leaves, LeavesOfItems, Levels;
    var data := EncodeItems(parts, v, i) + rest;
    FeedItemsNext(parts, i, |ItemsOf(v)|, data, depth);
    LeavesNext(parts, v, i);
    if i < |ItemsOf(v)| {
      EncodedItem(parts, v, i, rest);
      FeedEncoded(Part(parts, i), ItemsOf(v)[i], EncodeItems(parts, v, i + 1) + rest, depth);
      FeedItemsEncoded(parts, v, i + 1, rest, depth);
    } else {
      ItemsEnd(parts, v, rest);
    }
  }

  lemma FeedItemsNext(parts: seq<Schema>, i: nat, n: nat, data: seq<Byte>, depth: nat)
    requires i <= n
    ensures FeedItems(parts, i, n, data, depth) ==
              if i == n then Done(Fed([], data))
              else
                var first := Feed(Part(parts, i), data, depth);
                if !first.Done? then first
                else FedThen(first.value.bytes, FeedItems(parts, i + 1, n, first.value.rest, depth))
  {
    hide Feed;
  }

  lemma LeavesNext(parts: seq<Schema>, v: Value, i: nat)
    requires i <= |ItemsOf(v)|
    ensures LeavesOfItems(parts, v, i) ==
              if i == |ItemsOf(v)| then [] else Leaves(Part(parts, i), ItemsOf(v)[i]) + LeavesOfItems(parts, v, i + 1)
  {
    hide Leaves;
  }

  /** Ordered values are among them, and no deeper than their schema. */
  lemma {:induction false} OrderedIsHashable(s: Schema, v: Value)
    requires InOrder(s, v)
    ensures Hashable(s, v) && Levels(s, v) <= Depth(s)
    decreases v, 1
  {
    hide HasType, Canonical, LevelsOfItems, Depth, Parts;
    ItemsInOrder(s, v, v);
    forall i: nat | i < |ItemsOf(v)|
      ensures Hashable(Part(Parts(s, v), i), ItemsOf(v)[i])
    {
      OrderedIsHashable(Part(Parts(s, v), i), ItemsOf(v)[i]);
    }
    LevelsAreDepth(s, v, 0);
  }

  lemma {:induction false} LevelsAreDepth(s: Schema, v: Value, i: nat)
    requires InOrder(s, v) && i <= |ItemsOf(v)|
    ensures 1 + LevelsOfItems(Parts(s, v), v, i) <= Depth(s)
    decreases v, 0, |ItemsOf(v)| - i
  {
    hide Canonical, Levels, Parts;
    ItemsInOrder(s, v, v);
    if i < |ItemsOf(v)| {
      DepthOfPart(s, v, i);
      OrderedIsHashable(Part(Parts(s, v), i), ItemsOf(v)[i]);
      LevelsAreDepth(s, v, i + 1);
    }
  }

  /** `get_hash`: what the hash of a Variant is made from. */
  function HashInput(x: Variant): Outcome<Fed>
    requires ValidVariant(x)
  {
    if x.Empty? then Done(Fed([], [])) else Feed(Variants.SchemaOf(x.code), x.bytes, 0)
  }

  /** Equal ordered Variants of one code have equal hashes, made from the leaves of their values. */
  lemma {:induction false} EqualVariantsHashEqually(code: seq<Cell>, v: Value, w: Value)
    requires ValidDynamicCode(code) && InOrder(Variants.SchemaOf(code), v) && InOrder(Variants.SchemaOf(code), w)
    ensures var s := Variants.SchemaOf(code);
            var x, y := Holding(code, Encode(s, v)), Holding(code, Encode(s, w));
            && HashInput(x) == Done(Fed(Leaves(s, v), []))
            && (Equal(x, y) == Some(true) ==> HashInput(x) == HashInput(y) && Leaves(s, v) == Leaves(s, w))
  {
    hide Feed, Compare, Encode, HasType, Canonical, Ordered, Leaves, Depth, Order, Validate, Hashable, Levels;
    var s := Variants.SchemaOf(code);
    DepthFits(code);
    OrderedIsHashable(s, v);
    FeedEncoded(s, v, [], 0);
    assert Encode(s, v) + [] == Encode(s, v);
    CompareWhole(s, v, w);
    OrderLaws(s, v, w);
  }

  /** A single number feeds its bytes. */
  lemma {:induction false} HashOfNumber(kind: Cell, bytes: seq<Byte>)
    requires Width(kind) > 0 && !IsAlt(kind) && |bytes| == Width(kind)
    ensures ValidVariant(Holding([kind], bytes)) && HashInput(Holding([kind], bytes)) == Done(Fed(bytes, []))
  {
    hide Validate;
    NumberCode(kind);
    var x := Holding([kind], bytes);
    assert bytes[..Width(kind)] == bytes && bytes[Width(kind)..] == [];
    assert FeedInside(Prim(kind), bytes, 1) == FeedBytes(Width(kind), bytes);
    FeedUnfold(Prim(kind), bytes, 0);
  }

  /** The number that wraps around to the same 64 bits is stored in fewer of them. */
  predicate WrapsShort(n: int, m: int) {
    n - m == 0x1_0000_0000_0000_0000 && m >= -0x8000_0000
  }

  /**
   Equal integer Variants feed the same bytes exactly unless one of them is a negative number that was
   stored in less than 8 bytes and the other one is 2^64 above it.
   */
  lemma {:induction false} EqualIntegersHashEqually(n: int, m: int)
    requires -0x8000_0000_0000_0000 <= n < 0x1_0000_0000_0000_0000
    requires -0x8000_0000_0000_0000 <= m < 0x1_0000_0000_0000_0000
    ensures var x, y := IntegerVariant(n), IntegerVariant(m);
            && ValidVariant(x) && ValidVariant(y)
            && ((Equal(x, y) == Some(true) ==> HashInput(x) == HashInput(y)) <==> !WrapsShort(n, m) && !WrapsShort(m, n))
  {
    hide Feed, Compare, Validate, LittleEndian, HashInput, Equal;
    Pow256Values();
    Pow256Large();
    IntegerVariantsCompare(n, m);
    var x, y := IntegerVariant(n), IntegerVariant(m);
    SameData(x, y);
    HashOfNumber(x.code[0], x.bytes);
    HashOfNumber(y.code[0], y.bytes);
  }

  /** The largest 64-bit number and -1 are equal Variants, and feed 8 bytes and 1 byte. */
  lemma {:induction false} LargestAndMinusOne()
    ensures var x, y := IntegerVariant(0xFFFF_FFFF_FFFF_FFFF), IntegerVariant(-1);
            && ValidVariant(x) && ValidVariant(y) && Equal(x, y) == Some(true)
            && HashInput(x).Done? && HashInput(y).Done?
            && |HashInput(x).value.bytes| == 8 && |HashInput(y).value.bytes| == 1
  {
    hide Feed, Compare, Validate, LittleEndian, HashInput, Equal;
    Pow256Values();
    Pow256Large();
    var x, y := IntegerVariant(0xFFFF_FFFF_FFFF_FFFF), IntegerVariant(-1);
    IntegerVariantsCompare(0xFFFF_FFFF_FFFF_FFFF, -1);
    HashOfNumber(x.code[0], x.bytes);
    HashOfNumber(y.code[0], y.bytes);
  }
}

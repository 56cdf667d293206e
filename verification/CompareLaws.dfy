/** `compare` decides the order of values, and stops at their ends when it finds no difference. */
module CompareLaws {
  import opened Bytes
  import opened ByteCode
  import opened Schemas
  import opened Wire
  import opened CopySpec
  import opened CopyLaws
  import opened Ordering
  import opened CompareSpec

  lemma NumberRange(kind: Cell, bytes: seq<Byte>)
    requires IsNumber(kind) && |bytes| == Width(kind)
    ensures IsSigned(kind) ==> -0x8000_0000_0000_0000 <= Number(kind, bytes) < 0x8000_0000_0000_0000
    ensures !IsSigned(kind) ==> 0 <= Number(kind, bytes) < 0x1_0000_0000_0000_0000
  {
    Pow256Values();
    Pow256Large();
  }

  lemma Pow256Large()
    ensures Pow256(8) == 0x1_0000_0000_0000_0000
  {
    Pow256Values();
    assert Pow256(5) == 256 * Pow256(4);
    assert Pow256(6) == 256 * Pow256(5);
    assert Pow256(7) == 256 * Pow256(6);
  }

  /**
   Integers of any two kinds compare as numbers if and only if no unsigned one of 2^63 or more meets
   a signed one that is not above its wrapped value.
   */
  lemma IntegersCompareAsNumbers(s: Cell, a: seq<Byte>, t: Cell, b: seq<Byte>)
    requires IsNumber(s) && |a| == Width(s) && IsNumber(t) && |b| == Width(t)
    ensures var x, y := Number(s, a), Number(t, b);
            CompareNumbers(s, x, t, y) == Sign(x, y)
            <==> !(!IsSigned(s) && IsSigned(t) && x >= 0x8000_0000_0000_0000 && x - 0x1_0000_0000_0000_0000 <= y)
                 && !(IsSigned(s) && !IsSigned(t) && y >= 0x8000_0000_0000_0000 && y - 0x1_0000_0000_0000_0000 <= x)
  {
    NumberRange(s, a);
    NumberRange(t, b);
    WrapSmall(Number(s, a));
    WrapSmall(Number(t, b));
  }

  lemma WrapSmall(n: int)
    ensures -0x8000_0000_0000_0000 <= n < 0x8000_0000_0000_0000 ==> Wrap64(n) == n
    ensures 0x8000_0000_0000_0000 <= n < 0x1_0000_0000_0000_0000 ==> Wrap64(n) == n - 0x1_0000_0000_0000_0000
  {
    if n < 0 {
      assert -0x8000_0000_0000_0000 <= n ==> n % 0x1_0000_0000_0000_0000 == n + 0x1_0000_0000_0000_0000;
    }
  }

  /** The code `compare` falls back on is the first cell of the layout. */
  lemma KindIsFirstCell(s: Schema)
    requires !s.Foreign?
    ensures Flatten(s) != [] && Flatten(s)[0] == KindCode(s)
  {
    hide FlattenAll, Offsets;
  }

  lemma {:induction false} CompareUnfold(s: Schema, a: seq<Byte>, b: seq<Byte>, depth: nat)
    requires Ordered(s) && depth + 1 <= MAX_RECURSION
    ensures Compare(s, s, a, b, depth) == CompareKinds(s, s, a, b, depth + 1)
  {
    hide CompareKinds;
    assert Compare(s, s, a, b, depth) == CompareInside(s, s, a, b, depth + 1);
  }

  lemma {:induction false} CompareHeadOnly(s: Schema, v: Value, w: Value, ra: seq<Byte>, rb: seq<Byte>, depth: nat)
    requires InOrder(s, v) && InOrder(s, w) && (s.Null? || s.Prim? || s.Str?) && depth <= MAX_RECURSION
    ensures CompareKinds(s, s, HeadOf(s, v) + ra, HeadOf(s, w) + rb, depth) == Decide(OrderHeads(s, v, w), ra, rb)
  {
    var a, b := HeadOf(s, v) + ra, HeadOf(s, w) + rb;
    assert a[|HeadOf(s, v)|..] == ra && b[|HeadOf(s, w)|..] == rb;
    match s
    case Prim(kind) =>
      assert a[..Width(kind)] == v.bytes && b[..Width(kind)] == w.bytes;
      NumberRange(kind, v.bytes);
      NumberRange(kind, w.bytes);
      WrapSmall(Number(kind, v.bytes));
      WrapSmall(Number(kind, w.bytes));
    case Str =>
      StringAt(v.bytes, ra);
      StringAt(w.bytes, rb);
    case _ =>
  }

  lemma {:induction false} StringAt(bytes: seq<Byte>, rest: seq<Byte>)
    requires |bytes| <= MAX_SIZE
    ensures var data := LittleEndian(|bytes|, 4) + bytes + rest;
            OneInteger(data) == |bytes| && data[4..4 + |bytes|] == bytes && data[4 + |bytes|..] == rest
  {
    Pow256Values();
    ReadInteger(|bytes|, 4, bytes + rest);
    assert LittleEndian(|bytes|, 4) + bytes + rest == LittleEndian(|bytes|, 4) + (bytes + rest);
  }

  // ---------------------------------------------------------------------------------------------
  // Items

  /** What comparing items must give: the first difference, or what follows the shared items. */
  predicate ComparesItems(
      r: Verdict, parts: seq<Schema>, v: Value, w: Value, i: nat, n: nat, ra: seq<Byte>, rb: seq<Byte>)
    requires n <= |ItemsOf(v)| && n <= |ItemsOf(w)|
    requires forall k: nat :: n <= k < |ItemsOf(v)| ==> HasType(Part(parts, k), ItemsOf(v)[k])
    requires forall k: nat :: n <= k < |ItemsOf(w)| ==> HasType(Part(parts, k), ItemsOf(w)[k])
  {
    var order := OrderItems(parts, v, w, i);
    if r.Same? then
      && r == Same(EncodeItems(parts, v, n) + ra, EncodeItems(parts, w, n) + rb)
      && order == Sign(|ItemsOf(v)|, |ItemsOf(w)|)
    else r == Differ(order) && order != 0
  }

  lemma {:induction false} CompareItemsEncoded(
      parts: seq<Schema>, v: Value, w: Value, i: nat, n: nat, ra: seq<Byte>, rb: seq<Byte>, depth: nat)
    requires i <= n && n <= |ItemsOf(v)| && n <= |ItemsOf(w)| && (n == |ItemsOf(v)| || n == |ItemsOf(w)|)
    requires forall k: nat :: i <= k < |ItemsOf(v)| ==> InOrder(Part(parts, k), ItemsOf(v)[k])
    requires forall k: nat :: i <= k < |ItemsOf(v)| ==> HasType(Part(parts, k), ItemsOf(v)[k])
    requires forall k: nat :: i <= k < |ItemsOf(w)| ==> InOrder(Part(parts, k), ItemsOf(w)[k])
    requires forall k: nat :: i <= k < |ItemsOf(w)| ==> HasType(Part(parts, k), ItemsOf(w)[k])
    requires forall k: nat :: i <= k < n ==> depth + Depth(Part(parts, k)) <= MAX_RECURSION
    ensures ComparesItems(
              CompareItems(parts, parts, i, n, EncodeItems(parts, v, i) + ra, EncodeItems(parts, w, i) + rb, depth),
              parts, v, w, i, n, ra, rb)
    decreases v, 0, |ItemsOf(v)| - i
  {
    hide Compare, CompareItems, Encode, EncodeItems, HasType, Ordered, Canonical, Depth, Order, OrderItems;
    var a, b := EncodeItems(parts, v, i) + ra, EncodeItems(parts, w, i) + rb;
    CompareItemsNext(parts, i, n, a, b, depth);
    OrderItemsNext(parts, v, w, i);
    if i < n {
      var part, x, y := Part(parts, i), ItemsOf(v)[i], ItemsOf(w)[i];
      EncodedItem(parts, v, i, ra);
      EncodedItem(parts, w, i, rb);
      CompareEncoded(part, x, y, EncodeItems(parts, v, i + 1) + ra, EncodeItems(parts, w, i + 1) + rb, depth);
      if Order(part, x, y) == 0 {
        CompareItemsEncoded(parts, v, w, i + 1, n, ra, rb, depth);
      }
    }
  }

  lemma CompareItemsNext(parts: seq<Schema>, i: nat, n: nat, a: seq<Byte>, b: seq<Byte>, depth: nat)
    requires i <= n
    ensures CompareItems(parts, parts, i, n, a, b, depth) ==
              if i == n then Same(a, b)
              else
                var first := Compare(Part(parts, i), Part(parts, i), a, b, depth);
                if first.Same? then CompareItems(parts, parts, i + 1, n, first.a, first.b, depth) else first
  {
  }

  lemma OrderItemsNext(parts: seq<Schema>, v: Value, w: Value, i: nat)
    ensures OrderItems(parts, v, w, i) ==
              if i >= |ItemsOf(v)| || i >= |ItemsOf(w)| then Sign(|ItemsOf(v)|, |ItemsOf(w)|)
              else
                var first := Order(Part(parts, i), ItemsOf(v)[i], ItemsOf(w)[i]);
                if first != 0 then first else OrderItems(parts, v, w, i + 1)
  {
  }

  lemma {:induction false} EncodedItem(parts: seq<Schema>, v: Value, i: nat, rest: seq<Byte>)
    requires i < |ItemsOf(v)|
    requires forall k: nat :: i <= k < |ItemsOf(v)| ==> HasType(Part(parts, k), ItemsOf(v)[k])
    ensures EncodeItems(parts, v, i) + rest ==
              Encode(Part(parts, i), ItemsOf(v)[i]) + (EncodeItems(parts, v, i + 1) + rest)
  {
    hide Encode, HasType;
  }

  /** The loop over numbers of one kind does what the loop over items would do. */
  lemma {:induction false} CompareRunEncoded(
      kind: Cell, v: Value, w: Value, i: nat, ra: seq<Byte>, rb: seq<Byte>)
    requires i <= |ItemsOf(v)| == |ItemsOf(w)|
    requires forall k: nat :: i <= k < |ItemsOf(v)| ==> HasType(Part([Prim(kind)], k), ItemsOf(v)[k])
    requires forall k: nat :: i <= k < |ItemsOf(w)| ==> HasType(Part([Prim(kind)], k), ItemsOf(w)[k])
    ensures var parts := [Prim(kind)];
            CompareRun(kind, |ItemsOf(v)| - i, EncodeItems(parts, v, i) + ra, EncodeItems(parts, w, i) + rb)
            == Decide(OrderItems(parts, v, w, i), ra, rb)
    decreases |ItemsOf(v)| - i
  {
    hide EncodeItems, OrderItems, Number, Ordered, Canonical;
    var parts := [Prim(kind)];
    OrderItemsNext(parts, v, w, i);
    ItemsEnd(parts, v, ra);
    ItemsEnd(parts, w, rb);
    if i < |ItemsOf(v)| {
      var x, y := ItemsOf(v)[i], ItemsOf(w)[i];
      EncodedItem(parts, v, i, ra);
      EncodedItem(parts, w, i, rb);
      EncodedNumber(kind, x, EncodeItems(parts, v, i + 1) + ra);
      EncodedNumber(kind, y, EncodeItems(parts, w, i + 1) + rb);
      OrderOfNumbers(kind, x, y);
      CompareRunEncoded(kind, v, w, i + 1, ra, rb);
    }
  }

  lemma OrderOfNumbers(kind: Cell, v: Value, w: Value)
    requires HasType(Prim(kind), v) && HasType(Prim(kind), w)
    ensures Order(Prim(kind), v, w) == Sign(Number(kind, v.bytes), Number(kind, w.bytes))
  {
  }

  lemma {:induction false} ItemsEnd(parts: seq<Schema>, v: Value, rest: seq<Byte>)
    ensures EncodeItems(parts, v, |ItemsOf(v)|) + rest == rest
  {
    assert EncodeItems(parts, v, |ItemsOf(v)|) == [];
    assert [] + rest == rest;
  }

  lemma {:induction false} EncodedNumber(kind: Cell, v: Value, rest: seq<Byte>)
    requires HasType(Prim(kind), v)
    ensures var data := Encode(Prim(kind), v) + rest;
            && |v.bytes| == Width(kind) && |data| >= Width(kind)
            && data[..Width(kind)] == v.bytes && data[Width(kind)..] == rest
  {
    assert EncodeItems([], v, 0) == [];
    assert Encode(Prim(kind), v) == v.bytes;
  }

  lemma {:induction false} CompareArrayEncoded(
      elem: Schema, v: Value, w: Value, ra: seq<Byte>, rb: seq<Byte>, depth: nat)
    requires Ordered(elem) && |ItemsOf(v)| == |ItemsOf(w)| && depth + Depth(elem) <= MAX_RECURSION
    requires forall k: nat :: k < |ItemsOf(v)| ==> InOrder(elem, ItemsOf(v)[k])
    requires forall k: nat :: k < |ItemsOf(v)| ==> HasType(Part([elem], k), ItemsOf(v)[k])
    requires forall k: nat :: k < |ItemsOf(w)| ==> InOrder(elem, ItemsOf(w)[k])
    requires forall k: nat :: k < |ItemsOf(w)| ==> HasType(Part([elem], k), ItemsOf(w)[k])
    ensures var n, parts := |ItemsOf(v)|, [elem];
            CompareArray(elem, elem, n, n, EncodeItems(parts, v, 0) + ra, EncodeItems(parts, w, 0) + rb, depth)
            == Decide(OrderItems(parts, v, w, 0), ra, rb)
    decreases v, 1
  {
    hide CompareRun, CompareItems, EncodeItems, HasType, Canonical, Depth, OrderItems;
    if elem.Prim? {
      CompareRunEncoded(elem.kind, v, w, 0, ra, rb);
    } else {
      CompareItemsEncoded([elem], v, w, 0, |ItemsOf(v)|, ra, rb, depth);
      ItemsEnd([elem], v, ra);
      ItemsEnd([elem], w, rb);
    }
  }

  // ---------------------------------------------------------------------------------------------
  // Values

  /**
   Comparing two encoded values of one ordered type gives their order; if it finds no difference both
   streams are left exactly at the ends of the values.
   */
  lemma {:induction false} CompareEncoded(s: Schema, v: Value, w: Value, ra: seq<Byte>, rb: seq<Byte>, depth: nat)
    requires InOrder(s, v) && InOrder(s, w) && depth + Depth(s) <= MAX_RECURSION
    ensures Compare(s, s, Encode(s, v) + ra, Encode(s, w) + rb, depth) == Decide(Order(s, v, w), ra, rb)
    decreases v, 3
  {
    hide Compare, CompareKinds, Encode, EncodeItems, HasType, Canonical, Ordered, OrderItems, OrderHeads, HeadOf, Parts;
    CompareUnfold(s, Encode(s, v) + ra, Encode(s, w) + rb, depth);
    EncodingParts(s, v, ra);
    EncodingParts(s, w, rb);
    if s.Null? || s.Prim? || s.Str? {
      CompareHeadOnly(s, v, w, ra, rb, depth + 1);
      NoItems(s, v, w, ra);
      NoItems(s, w, v, rb);
    } else {
      ComparePartsEncoded(s, v, w, ra, rb, depth + 1);
    }
  }

  lemma {:induction false} EncodingParts(s: Schema, v: Value, rest: seq<Byte>)
    requires HasType(s, v)
    ensures Encode(s, v) + rest == HeadOf(s, v) + (EncodeItems(Parts(s, v), v, 0) + rest)
    ensures forall k: nat :: k < |ItemsOf(v)| ==> HasType(Part(Parts(s, v), k), ItemsOf(v)[k])
  {
    hide EncodeItems, HeadOf;
  }

  lemma {:induction false} NoItems(s: Schema, v: Value, w: Value, rest: seq<Byte>)
    requires HasType(s, v) && HasType(s, w) && (s.Null? || s.Prim? || s.Str?)
    ensures ItemsOf(v) == [] && EncodeItems(Parts(s, v), v, 0) + rest == rest
    ensures OrderItems(Parts(s, v), v, w, 0) == 0
  {
    assert [] + rest == rest;
  }

  lemma {:induction false} CompareDimsEncoded(d: seq<nat>, e: seq<nat>, ra: seq<Byte>, rb: seq<Byte>)
    requires |d| == |e| && (forall x :: x in d ==> x <= MAX_SIZE) && (forall x :: x in e ==> x <= MAX_SIZE)
    ensures CompareDims(|d|, DimBytes(d) + ra, DimBytes(e) + rb) == Decide(OrderSizes(d, e), ra, rb)
  {
    hide LittleEndian, FromLittleEndian;
    if d == [] {
      assert [] + ra == ra && [] + rb == rb;
    } else {
      hide CompareDims;
      assert d[0] in d && e[0] in e && forall x :: x in d[1..] ==> x in d;
      assert forall x :: x in e[1..] ==> x in e;
      DimAt(d, ra);
      DimAt(e, rb);
      CompareDimsEncoded(d[1..], e[1..], ra, rb);
      CompareDimsNext(|d|, DimBytes(d) + ra, DimBytes(e) + rb);
    }
  }

  lemma {:induction false} DimAt(d: seq<nat>, rest: seq<Byte>)
    requires d != [] && d[0] <= MAX_SIZE
    ensures var data := DimBytes(d) + rest;
            |data| >= 4 && OneInteger(data) == d[0] && data[4..] == DimBytes(d[1..]) + rest
  {
    Pow256Values();
    ReadInteger(d[0], 4, DimBytes(d[1..]) + rest);
    assert DimBytes(d) + rest == LittleEndian(d[0], 4) + (DimBytes(d[1..]) + rest);
  }

  lemma CompareDimsNext(n: nat, a: seq<Byte>, b: seq<Byte>)
    requires n > 0 && |a| >= 4 && |b| >= 4
    ensures CompareDims(n, a, b) ==
              if OneInteger(a) != OneInteger(b) then Differ(Sign(OneInteger(a), OneInteger(b)))
              else CompareDims(n - 1, a[4..], b[4..])
  {
  }

  /** Arrays, lists, matrices and images: the heads decide, else it is up to the elements. */
  lemma {:induction false} CompareArrayHead(s: Schema, v: Value, w: Value, a: seq<Byte>, b: seq<Byte>, depth: nat)
    requires Fits(s, v) && Fits(s, w) && Bulk(s) && depth <= MAX_RECURSION
    ensures CompareKinds(s, s, HeadOf(s, v) + a, HeadOf(s, w) + b, depth) ==
              if OrderHeads(s, v, w) != 0 then Differ(OrderHeads(s, v, w))
              else CompareArray(s.elem, s.elem, |ItemsOf(v)|, |ItemsOf(w)|, a, b, depth)
  {
    hide CompareArray, Product, OrderSizes, ReadDims, CompareDims, DimBytes;
    Pow256Values();
    assert [] + a == a && [] + b == b;
    match s
    case Lst(_) =>
      ReadInteger(|v.items|, 4, a);
      ReadInteger(|w.items|, 4, b);
      CompareDifferentSizes(s.elem, |v.items|, |w.items|, a, b, depth);
    case Mat(dims, _) => SizesLaws(dims, dims);
    case Img(_, _) =>
      CompareDimsEncoded(v.dims, w.dims, a, b);
      ReadBackDims(v.dims, a);
      SizesLaws(v.dims, w.dims);
    case _ =>
  }

  lemma CompareDifferentSizes(elem: Schema, n: nat, m: nat, a: seq<Byte>, b: seq<Byte>, depth: nat)
    requires depth <= MAX_RECURSION
    ensures n != m ==> CompareArray(elem, elem, n, m, a, b, depth) == Differ(Sign(n, m))
  {
  }

  /** Maps: the items both have, then the sizes. */
  lemma {:induction false} CompareMapHead(s: Schema, v: Value, w: Value, a: seq<Byte>, b: seq<Byte>, depth: nat)
    requires Fits(s, v) && Fits(s, w) && s.Assoc? && depth <= MAX_RECURSION
    ensures var n, m := |ItemsOf(v)|, |ItemsOf(w)|;
            var r := CompareItems([s.key, s.value], [s.key, s.value], 0, if n < m then n else m, a, b, depth);
            CompareKinds(s, s, HeadOf(s, v) + a, HeadOf(s, w) + b, depth) ==
              if r.Same? then Decide(Sign(n, m), r.a, r.b) else r
  {
    hide CompareItems;
    Pow256Values();
    ReadInteger(|v.items| / 2, 4, a);
    ReadInteger(|w.items| / 2, 4, b);
  }

  lemma {:induction false} DepthOfElement(elems: seq<Schema>, k: nat)
    requires k < |elems|
    ensures Depth(elems[k]) <= DepthAll(elems)
  {
    if k > 0 {
      DepthOfElement(elems[1..], k - 1);
    }
  }

  lemma {:induction false} DepthOfPart(s: Schema, v: Value, k: nat)
    requires Fits(s, v) && k < |ItemsOf(v)| && Ordered(s)
    ensures 1 + Depth(Part(Parts(s, v), k)) <= Depth(s)
  {
    hide DepthAll;
    if s.Tup? {
      DepthOfElement(s.elems, k);
    }
  }

  lemma {:induction false} ComparePartsEncoded(s: Schema, v: Value, w: Value, ra: seq<Byte>, rb: seq<Byte>, depth: nat)
    requires InOrder(s, v) && InOrder(s, w) && depth - 1 + Depth(s) <= MAX_RECURSION && 1 <= depth <= MAX_RECURSION
    requires !s.Null? && !s.Prim? && !s.Str?
    requires forall k: nat :: k < |ItemsOf(v)| ==> HasType(Part(Parts(s, v), k), ItemsOf(v)[k])
    requires forall k: nat :: k < |ItemsOf(w)| ==> HasType(Part(Parts(s, w), k), ItemsOf(w)[k])
    ensures CompareKinds(s, s, HeadOf(s, v) + (EncodeItems(Parts(s, v), v, 0) + ra),
                         HeadOf(s, w) + (EncodeItems(Parts(s, w), w, 0) + rb), depth)
            == Decide(Order(s, v, w), ra, rb)
    decreases v, 2
  {
    hide Compare, CompareKinds, CompareItems, CompareArray, Encode, EncodeItems, HasType, Canonical, Ordered,
      OrderItems, Depth, OrderHeads, HeadOf;
    ItemsInOrder(s, v, w);
    ItemsInOrder(s, w, v);
    Kinds(s, v);
    Kinds(s, w);
    var parts := Parts(s, v);
    var a, b := EncodeItems(parts, v, 0) + ra, EncodeItems(parts, w, 0) + rb;
    if Bulk(s) {
      BulkElement(s, v, w);
      CompareArrayHead(s, v, w, a, b, depth);
      if OrderHeads(s, v, w) == 0 {
        CompareArrayEncoded(s.elem, v, w, ra, rb, depth);
      }
    } else {
      var n := if |ItemsOf(v)| < |ItemsOf(w)| then |ItemsOf(v)| else |ItemsOf(w)|;
      forall k: nat | k < n
        ensures depth + Depth(Part(parts, k)) <= MAX_RECURSION
      {
        DepthOfPart(s, v, k);
      }
      CompareItemsEncoded(parts, v, w, 0, n, ra, rb, depth);
      ItemsEnd(parts, v, ra);
      ItemsEnd(parts, w, rb);
      CompareOtherHead(s, v, w, a, b, depth);
    }
  }

  lemma Kinds(s: Schema, v: Value)
    requires InOrder(s, v) && !s.Null? && !s.Prim? && !s.Str?
    ensures Fits(s, v) && (Bulk(s) || s.Assoc? || s.Tup?)
  {
  }

  lemma {:induction false} BulkElement(s: Schema, v: Value, w: Value)
    requires Bulk(s) && InOrder(s, v) && InOrder(s, w)
    ensures Parts(s, v) == [s.elem] && Ordered(s.elem) && Depth(s) == 1 + Depth(s.elem)
    ensures OrderHeads(s, v, w) == 0 ==> |ItemsOf(v)| == |ItemsOf(w)|
  {
    if s.Img? {
      SizesLaws(v.dims, w.dims);
    }
  }

  /** Tuples and maps. */
  lemma {:induction false} CompareOtherHead(s: Schema, v: Value, w: Value, a: seq<Byte>, b: seq<Byte>, depth: nat)
    requires Fits(s, v) && Fits(s, w) && (s.Assoc? || s.Tup?) && depth <= MAX_RECURSION
    ensures OrderHeads(s, v, w) == 0
    ensures var n, m, parts := |ItemsOf(v)|, |ItemsOf(w)|, Parts(s, v);
            var r := CompareItems(parts, parts, 0, if n < m then n else m, a, b, depth);
            CompareKinds(s, s, HeadOf(s, v) + a, HeadOf(s, w) + b, depth) ==
              if r.Same? then Decide(Sign(n, m), r.a, r.b) else r
  {
    hide CompareItems;
    if s.Assoc? {
      CompareMapHead(s, v, w, a, b, depth);
    } else {
      assert [] + a == a && [] + b == b;
    }
  }

  /** Values compare equal exactly when their bytes are the same. */
  lemma {:induction false} EqualMeansSameBytes(s: Schema, v: Value, w: Value, ra: seq<Byte>, rb: seq<Byte>, depth: nat)
    requires InOrder(s, v) && InOrder(s, w) && depth + Depth(s) <= MAX_RECURSION
    ensures Compare(s, s, Encode(s, v) + ra, Encode(s, w) + rb, depth) == Same(ra, rb)
            <==> Encode(s, v) == Encode(s, w)
    ensures Encode(s, v) == Encode(s, w) <==> v == w
  {
    hide Compare, Encode, HasType, Ordered, Canonical, Order, Depth;
    CompareEncoded(s, v, w, ra, rb, depth);
    OrderLaws(s, v, w);
    if Encode(s, v) == Encode(s, w) {
      CompareEncoded(s, v, w, [], [], depth);
      CompareEncoded(s, v, v, [], [], depth);
      OrderLaws(s, v, v);
    }
  }
}

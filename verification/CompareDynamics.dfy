/**
 Dynamic and optional values. `compare` takes off what values are wrapped in and compares what is inside,
 at the top as well as in the fields of objects.
 */
module CompareDynamics {
  import opened Bytes
  import opened ByteCode
  import opened Schemas
  import opened Wire
  import opened CopySpec
  import opened CopyLaws
  import opened Ordering
  import opened CompareSpec
  import opened CompareLaws

  /** A value with its schema. */
  datatype Datum = Datum(schema: Schema, value: Value)

  const NOTHING := Datum(Null, Raw([]))

  predicate Typed(d: Datum) {
    HasType(d.schema, d.value)
  }

  function Written(d: Datum): seq<Byte>
    requires Typed(d)
  {
    Encode(d.schema, d.value)
  }

  predicate Wrapped(d: Datum) {
    d.schema.Dyn? || d.schema.Opt?
  }

  /** What a wrapper holds; an optional without a value holds null. */
  function Held(d: Datum): (r: Datum)
    requires Typed(d) && Wrapped(d)
    ensures Typed(r) && (r == NOTHING || r.value < d.value)
  {
    if ItemsOf(d.value) == [] then NOTHING else Datum(Part(Parts(d.schema, d.value), 0), ItemsOf(d.value)[0])
  }

  /** What is inside of all wrappers. */
  function Inside(d: Datum): (r: Datum)
    requires Typed(d)
    ensures Typed(r) && !Wrapped(r)
    ensures r == d || r == NOTHING || r.value < d.value
    decreases if Wrapped(d) then 1 else 0, d.value
  {
    if Wrapped(d) then Inside(Held(d)) else d
  }

  /** The bytes of the wrappers: flags and codes. */
  function Wrapping(d: Datum): seq<Byte>
    requires Typed(d)
    decreases if Wrapped(d) then 1 else 0, d.value
  {
    if Wrapped(d) then HeadOf(d.schema, d.value) + Wrapping(Held(d)) else []
  }

  function Layers(d: Datum): nat
    requires Typed(d)
    decreases if Wrapped(d) then 1 else 0, d.value
  {
    if Wrapped(d) then 1 + Layers(Held(d)) else 0
  }

  lemma NothingWritten()
    ensures Written(NOTHING) == []
  {
    assert EncodeItems([], Raw([]), 0) == [];
  }

  lemma {:induction false} WrittenHeld(d: Datum)
    requires Typed(d) && Wrapped(d)
    ensures Written(d) == HeadOf(d.schema, d.value) + Written(Held(d))
  {
    var s, v := d.schema, d.value;
    var parts := Parts(s, v);
    if ItemsOf(v) == [] {
      assert EncodeItems(parts, v, 0) == [];
      NothingWritten();
    } else {
      assert EncodeItems(parts, v, 1) == [];
      assert EncodeItems(parts, v, 0) == Written(Held(d)) + [];
    }
  }

  /** A value is written as its wrappers and what is inside. */
  lemma {:induction false} WrittenInside(d: Datum)
    requires Typed(d)
    ensures Written(d) == Wrapping(d) + Written(Inside(d))
    decreases if Wrapped(d) then 1 else 0, d.value
  {
    hide Typed, Written, HeadOf, Held;
    if Wrapped(d) {
      WrittenHeld(d);
      WrittenInside(Held(d));
    }
  }

  // ---------------------------------------------------------------------------------------------
  // Taking off the wrappers

  /** How `compare` reads a wrapper. */
  lemma {:induction false} WrapperRead(d: Datum, rest: seq<Byte>)
    requires Typed(d) && Wrapped(d)
    ensures var inner, data := Held(d), Written(d) + rest;
            && (d.schema.Dyn? ==>
                  var r := ReadByteCode(data);
                  && r.Done? && data[|r.value.1|..] == Written(inner) + rest
                  && Decode(r.value.0, NoType, 0) == inner.schema)
            && (d.schema.Opt? ==>
                  && |data| >= 1 && data[1..] == Written(inner) + rest
                  && inner.schema == if data[0] != 0 then d.schema.elem else Null)
  {
    hide Written, Decode, ReadByteCode, LittleEndian, CellBytes;
    WrittenHeld(d);
    var v, content := d.value, Written(Held(d)) + rest;
    var head, data := HeadOf(d.schema, v), Written(d) + rest;
    assert data == head + content;
    assert data[|head|..] == content;
    if d.schema.Dyn? {
      ReadBackByteCode(v.code, content);
      ValidateDecides(v.code, NoType, 0, 0);
    }
  }

  lemma {:induction false} OneLayerOfSecond(s: Schema, d: Datum, a: seq<Byte>, rb: seq<Byte>, depth: nat)
    requires Typed(d) && Wrapped(d)
    ensures Compare(s, d.schema, a, Written(d) + rb, depth)
            == Compare(s, Held(d).schema, a, Written(Held(d)) + rb, depth + 1)
  {
    hide Written, ReadByteCode, CompareKinds, Typed, Held;
    WrapperRead(d, rb);
    var b := Written(d) + rb;
    if depth + 1 <= MAX_RECURSION {
      assert Compare(s, d.schema, a, b, depth) == CompareInside(s, d.schema, a, b, depth + 1);
    }
  }

  lemma {:induction false} OneLayerOfFirst(d: Datum, t: Schema, ra: seq<Byte>, b: seq<Byte>, depth: nat)
    requires Typed(d) && Wrapped(d) && !t.Dyn? && !t.Opt?
    ensures Compare(d.schema, t, Written(d) + ra, b, depth)
            == Compare(Held(d).schema, t, Written(Held(d)) + ra, b, depth + 1)
  {
    hide Written, ReadByteCode, Typed, Held;
    WrapperRead(d, ra);
    var a := Written(d) + ra;
    if depth + 1 <= MAX_RECURSION {
      assert Compare(d.schema, t, a, b, depth) == CompareInside(d.schema, t, a, b, depth + 1);
      assert CompareInside(d.schema, t, a, b, depth + 1) == CompareKinds(d.schema, t, a, b, depth + 1);
    }
  }

  lemma {:induction false} TakeOffSecond(s: Schema, d: Datum, a: seq<Byte>, rb: seq<Byte>, depth: nat)
    requires Typed(d)
    ensures Compare(s, d.schema, a, Written(d) + rb, depth)
            == Compare(s, Inside(d).schema, a, Written(Inside(d)) + rb, depth + Layers(d))
    decreases if Wrapped(d) then 1 else 0, d.value
  {
    hide Compare, Written, Typed, Held;
    if Wrapped(d) {
      OneLayerOfSecond(s, d, a, rb, depth);
      TakeOffSecond(s, Held(d), a, rb, depth + 1);
    }
  }

  lemma {:induction false} TakeOffFirst(d: Datum, t: Schema, ra: seq<Byte>, b: seq<Byte>, depth: nat)
    requires Typed(d) && !t.Dyn? && !t.Opt?
    ensures Compare(d.schema, t, Written(d) + ra, b, depth)
            == Compare(Inside(d).schema, t, Written(Inside(d)) + ra, b, depth + Layers(d))
    decreases if Wrapped(d) then 1 else 0, d.value
  {
    hide Compare, Written, Typed, Held;
    if Wrapped(d) {
      OneLayerOfFirst(d, t, ra, b, depth);
      TakeOffFirst(Held(d), t, ra, b, depth + 1);
    }
  }

  /** Comparing two values of any kind, however they are wrapped, is comparing what is inside of them. */
  lemma {:induction false} CompareUnwrapped(c: Datum, d: Datum, ra: seq<Byte>, rb: seq<Byte>, depth: nat)
    requires Typed(c) && Typed(d)
    ensures Compare(c.schema, d.schema, Written(c) + ra, Written(d) + rb, depth)
            == Compare(Inside(c).schema, Inside(d).schema, Written(Inside(c)) + ra, Written(Inside(d)) + rb,
                       depth + Layers(c) + Layers(d))
  {
    hide Compare, Written, Typed, Inside, Layers;
    TakeOffSecond(c.schema, d, Written(c) + ra, rb, depth);
    TakeOffFirst(c, Inside(d).schema, ra, Written(Inside(d)) + rb, depth + Layers(d));
  }

  // ---------------------------------------------------------------------------------------------
  // The order of what is inside

  function ItemOf(d: Datum, i: nat): (r: Datum)
    requires Typed(d) && i < |ItemsOf(d.value)|
    ensures Typed(r) && r.value < d.value
  {
    Datum(Part(Parts(d.schema, d.value), i), ItemsOf(d.value)[i])
  }

  function NumberOf(d: Datum): int
    requires Typed(d) && d.schema.Prim?
  {
    Number(d.schema.kind, d.value.bytes)
  }

  /**
   The order `compare` gives: integers of whatever code as numbers and before anything else, values of one
   code item by item, and other values by their codes.
   */
  function Rank(c: Datum, d: Datum): int
    requires Typed(c) && Typed(d)
    decreases c.value, 1, 0
  {
    var p, q := Inside(c), Inside(d);
    if p.schema.Prim? && q.schema.Prim? then Sign(NumberOf(p), NumberOf(q))
    else if p.schema.Prim? then -1
    else if p.schema != q.schema then Sign(KindCode(p.schema), KindCode(q.schema))
    else if p.schema.Null? then 0
    else if OrderHeads(p.schema, p.value, q.value) != 0 then OrderHeads(p.schema, p.value, q.value)
    else RankItems(p, q, 0)
  }

  /** From the i-th item on: the first difference decides, then the number of items. */
  function RankItems(p: Datum, q: Datum, i: nat): int
    requires Typed(p) && Typed(q)
    decreases p.value, 0, |ItemsOf(p.value)| - i
  {
    var n, m := |ItemsOf(p.value)|, |ItemsOf(q.value)|;
    if i >= n || i >= m then Sign(n, m)
    else
      var first := Rank(ItemOf(p, i), ItemOf(q, i));
      if first != 0 then first else RankItems(p, q, i + 1)
  }

  /** Only the codes are compared. */
  predicate ByCode(s: Schema, t: Schema) {
    && !s.Foreign? && !s.Any? && !s.Str? && !t.Foreign? && !(s.Lst? && t.Str?)
    && KindCode(s) != KindCode(t)
  }

  predicate IsContainer(s: Schema) {
    (Bulk(s) && (s.elem.Prim? ==> IsNumber(s.elem.kind))) || s.Assoc? || s.Tup? || s.Obj?
  }

  predicate NoOddBool(d: Datum)
    requires Typed(d) && d.schema.Prim?
  {
    Base(d.schema.kind) == CODE_BOOL && |d.value.bytes| == 1 ==> d.value.bytes[0] <= 1
  }

  /**
   Values `compare` puts in order. Wherever two values meet they are of one code, or integers that do not
   wrap around, or told apart by their codes. Strictly, they are also written the same way if they are
   equal, and a number meets nothing that comes before its code.
   */
  predicate Comparable(c: Datum, d: Datum, strict: bool)
    requires Typed(c) && Typed(d)
    decreases c.value, 1, 0
  {
    var p, q := Inside(c), Inside(d);
    if p.schema.Prim? && q.schema.Prim? then
      && IsNumber(p.schema.kind) && IsNumber(q.schema.kind)
      && CompareNumbers(p.schema.kind, NumberOf(p), q.schema.kind, NumberOf(q)) == Sign(NumberOf(p), NumberOf(q))
      && (strict && NumberOf(p) == NumberOf(q) ==>
            p.schema == q.schema && NoOddBool(p) && NoOddBool(q) && Wrapping(c) == Wrapping(d))
    else if p.schema.Prim? then
      IsNumber(p.schema.kind) && !q.schema.Foreign? && (strict ==> p.schema.kind < KindCode(q.schema))
    else if p.schema != q.schema then
      ByCode(p.schema, q.schema) && (strict && q.schema.Prim? ==> q.schema.kind < KindCode(p.schema))
    else
      && (strict ==> Wrapping(c) == Wrapping(d))
      && (p.schema.Null? || p.schema.Str? || (IsContainer(p.schema) && ComparableItems(p, q, 0, strict)))
  }

  predicate ComparableItems(p: Datum, q: Datum, i: nat, strict: bool)
    requires Typed(p) && Typed(q)
    decreases p.value, 0, |ItemsOf(p.value)| - i
  {
    i < |ItemsOf(p.value)| && i < |ItemsOf(q.value)| ==>
      Comparable(ItemOf(p, i), ItemOf(q, i), strict) && ComparableItems(p, q, i + 1, strict)
  }

  /** How many levels of `compare` are enough. */
  function Room(c: Datum, d: Datum): nat
    requires Typed(c) && Typed(d)
    decreases c.value, 1, 0
  {
    var p, q := Inside(c), Inside(d);
    Layers(c) + Layers(d) + 1 + Extra(p.schema)
    + if p.schema == q.schema && !p.schema.Null? then RoomOfItems(p, q, 0) else 0
  }

  function RoomOfItems(p: Datum, q: Datum, i: nat): nat
    requires Typed(p) && Typed(q)
    decreases p.value, 0, |ItemsOf(p.value)| - i
  {
    if i >= |ItemsOf(p.value)| || i >= |ItemsOf(q.value)| then 0
    else Max(Room(ItemOf(p, i), ItemOf(q, i)), RoomOfItems(p, q, i + 1))
  }

  // ---------------------------------------------------------------------------------------------
  // Comparing is ordering

  lemma {:induction false} CompareIsKinds(s: Schema, t: Schema, a: seq<Byte>, b: seq<Byte>, depth: nat)
    requires depth + 1 <= MAX_RECURSION && !t.Dyn? && !t.Opt?
    ensures Compare(s, t, a, b, depth) == CompareKinds(s, t, a, b, depth + 1)
  {
    hide CompareKinds;
    assert Compare(s, t, a, b, depth) == CompareInside(s, t, a, b, depth + 1);
  }

  lemma {:induction false} NumberWritten(d: Datum, rest: seq<Byte>)
    requires Typed(d) && d.schema.Prim?
    ensures var data, width := Written(d) + rest, Width(d.schema.kind);
            && |data| >= width && data[..width] == d.value.bytes && data[width..] == rest
  {
    EncodedNumber(d.schema.kind, d.value, rest);
  }

  /** Two integers of any codes. */
  lemma {:induction false} CompareTwoIntegers(p: Datum, q: Datum, ra: seq<Byte>, rb: seq<Byte>, depth: nat)
    requires Typed(p) && Typed(q) && p.schema.Prim? && q.schema.Prim? && depth + 1 <= MAX_RECURSION
    requires IsNumber(p.schema.kind) && IsNumber(q.schema.kind)
    ensures Compare(p.schema, q.schema, Written(p) + ra, Written(q) + rb, depth)
            == Decide(CompareNumbers(p.schema.kind, NumberOf(p), q.schema.kind, NumberOf(q)), ra, rb)
  {
    hide Written, Number, Width;
    CompareIsKinds(p.schema, q.schema, Written(p) + ra, Written(q) + rb, depth);
    NumberWritten(p, ra);
    NumberWritten(q, rb);
  }

  /** An integer against something else. */
  lemma {:induction false} CompareNumberFirst(p: Datum, q: Datum, ra: seq<Byte>, b: seq<Byte>, depth: nat)
    requires Typed(p) && p.schema.Prim? && IsNumber(p.schema.kind) && depth + 1 <= MAX_RECURSION
    requires !Wrapped(q) && !q.schema.Prim? && !q.schema.Foreign?
    ensures Compare(p.schema, q.schema, Written(p) + ra, b, depth) == Differ(-1)
  {
    hide Written, Number, Width;
    CompareIsKinds(p.schema, q.schema, Written(p) + ra, b, depth);
    NumberWritten(p, ra);
  }

  lemma {:induction false} CompareByCode(s: Schema, t: Schema, a: seq<Byte>, b: seq<Byte>, depth: nat)
    requires ByCode(s, t) && !s.Prim? && !s.Dyn? && !s.Opt? && !t.Dyn? && !t.Opt? && depth + 1 <= MAX_RECURSION
    ensures Compare(s, t, a, b, depth) == Differ(Sign(KindCode(s), KindCode(t)))
  {
    CompareIsKinds(s, t, a, b, depth);
    hide Compare;
  }

  /** The bytes of the items from the i-th on. */
  function ItemBytes(d: Datum, i: nat): seq<Byte>
    requires Typed(d) && i <= |ItemsOf(d.value)|
  {
    EncodeItems(Parts(d.schema, d.value), d.value, i)
  }

  lemma {:induction false} NextItem(d: Datum, i: nat, rest: seq<Byte>)
    requires Typed(d) && i <= |ItemsOf(d.value)|
    ensures i < |ItemsOf(d.value)| ==>
              ItemBytes(d, i) + rest == Written(ItemOf(d, i)) + (ItemBytes(d, i + 1) + rest)
    ensures i == |ItemsOf(d.value)| ==> ItemBytes(d, i) + rest == rest
  {
    hide Parts, Encode;
    if i < |ItemsOf(d.value)| {
      EncodedItem(Parts(d.schema, d.value), d.value, i, rest);
    }
  }

  /** What comparing items must give: the first difference, or what follows the shared items. */
  predicate RanksItems(r: Verdict, p: Datum, q: Datum, i: nat, n: nat, ra: seq<Byte>, rb: seq<Byte>)
    requires Typed(p) && Typed(q) && n <= |ItemsOf(p.value)| && n <= |ItemsOf(q.value)|
  {
    if r.Same? then
      && r == Same(ItemBytes(p, n) + ra, ItemBytes(q, n) + rb)
      && RankItems(p, q, i) == Sign(|ItemsOf(p.value)|, |ItemsOf(q.value)|)
    else r == Differ(RankItems(p, q, i)) && RankItems(p, q, i) != 0
  }

  /** Two values of one code that is neither dynamic nor optional. */
  predicate Alike(p: Datum, q: Datum) {
    Typed(p) && Typed(q) && p.schema == q.schema && !Wrapped(p)
  }

  lemma SameParts(p: Datum, q: Datum)
    requires Alike(p, q)
    ensures Parts(p.schema, p.value) == Parts(q.schema, q.value)
    ensures forall i: nat :: i < |ItemsOf(p.value)| && i < |ItemsOf(q.value)| ==>
              ItemOf(p, i).schema == ItemOf(q, i).schema
  {
  }

  lemma {:induction false} CompareItemsRanked(
      p: Datum, q: Datum, i: nat, n: nat, ra: seq<Byte>, rb: seq<Byte>, depth: nat, strict: bool)
    requires Alike(p, q) && ComparableItems(p, q, i, strict) && depth + RoomOfItems(p, q, i) <= MAX_RECURSION
    requires var (k, m) := (|ItemsOf(p.value)|, |ItemsOf(q.value)|); i <= n == if k < m then k else m
    ensures var parts := Parts(p.schema, p.value);
            RanksItems(CompareItems(parts, parts, i, n, ItemBytes(p, i) + ra, ItemBytes(q, i) + rb, depth),
                       p, q, i, n, ra, rb)
    decreases p.value, 0, |ItemsOf(p.value)| - i
  {
    hide Compare, CompareItems, Written, ItemBytes, Typed, Parts, Rank, RankItems, Comparable, ComparableItems, Room,
      RoomOfItems, Part;
    var parts := Parts(p.schema, p.value);
    SameParts(p, q);
    NextItem(p, i, ra);
    NextItem(q, i, rb);
    CompareItemsNext(parts, i, n, ItemBytes(p, i) + ra, ItemBytes(q, i) + rb, depth);
    ItemsNext(p, q, i, strict);
    if i < n {
      var c, d := ItemOf(p, i), ItemOf(q, i);
      CompareRanked(c, d, ItemBytes(p, i + 1) + ra, ItemBytes(q, i + 1) + rb, depth, strict);
      if Rank(c, d) == 0 {
        CompareItemsRanked(p, q, i + 1, n, ra, rb, depth, strict);
      }
    }
  }

  lemma ItemsNext(p: Datum, q: Datum, i: nat, strict: bool)
    requires Typed(p) && Typed(q)
    ensures var n, m := |ItemsOf(p.value)|, |ItemsOf(q.value)|;
            if i >= n || i >= m then RankItems(p, q, i) == Sign(n, m)
            else
              var c, d := ItemOf(p, i), ItemOf(q, i);
              && RankItems(p, q, i) == (if Rank(c, d) != 0 then Rank(c, d) else RankItems(p, q, i + 1))
              && RoomOfItems(p, q, i) == Max(Room(c, d), RoomOfItems(p, q, i + 1))
              && (ComparableItems(p, q, i, strict) ==>
                    Comparable(c, d, strict) && ComparableItems(p, q, i + 1, strict))
              && c.schema == Part(Parts(p.schema, p.value), i)
  {
    hide Rank, Room, Comparable, Parts;
  }

  /** Numbers of one code are ranked as they are ordered. */
  lemma {:induction false} RankOfNumbers(p: Datum, q: Datum, kind: Cell, i: nat)
    requires Alike(p, q) && Parts(p.schema, p.value) == [Prim(kind)]
    ensures RankItems(p, q, i) == OrderItems([Prim(kind)], p.value, q.value, i)
    decreases |ItemsOf(p.value)| - i
  {
    hide Typed, RankItems, OrderItems, Number;
    SameParts(p, q);
    ItemsNext(p, q, i, false);
    OrderItemsNext([Prim(kind)], p.value, q.value, i);
    if i < |ItemsOf(p.value)| && i < |ItemsOf(q.value)| {
      var c, d := ItemOf(p, i), ItemOf(q, i);
      OneRank(c, d, kind);
      RankOfNumbers(p, q, kind, i + 1);
    }
  }

  lemma OneRank(c: Datum, d: Datum, kind: Cell)
    requires Typed(c) && Typed(d) && c.schema == d.schema == Prim(kind)
    ensures Rank(c, d) == Order(Prim(kind), c.value, d.value)
  {
    OrderOfNumbers(kind, c.value, d.value);
  }

  /** Arrays, lists, matrices and images of one size. */
  lemma {:induction false} CompareArrayRanked(
      p: Datum, q: Datum, ra: seq<Byte>, rb: seq<Byte>, depth: nat, strict: bool)
    requires Alike(p, q) && Bulk(p.schema) && IsContainer(p.schema) && ComparableItems(p, q, 0, strict)
    requires |ItemsOf(p.value)| == |ItemsOf(q.value)| && depth + RoomOfItems(p, q, 0) <= MAX_RECURSION
    ensures var elem, n := p.schema.elem, |ItemsOf(p.value)|;
            CompareArray(elem, elem, n, n, ItemBytes(p, 0) + ra, ItemBytes(q, 0) + rb, depth)
            == Decide(RankItems(p, q, 0), ra, rb)
    decreases p.value, 1
  {
    hide CompareRun, CompareItems, Typed, RankItems, OrderItems, ComparableItems, RoomOfItems, EncodeItems;
    var elem, n := p.schema.elem, |ItemsOf(p.value)|;
    SameParts(p, q);
    if elem.Prim? {
      ItemsTyped(p);
      ItemsTyped(q);
      CompareRunEncoded(elem.kind, p.value, q.value, 0, ra, rb);
      RankOfNumbers(p, q, elem.kind, 0);
    } else {
      CompareItemsRanked(p, q, 0, n, ra, rb, depth, strict);
      NextItem(p, n, ra);
      NextItem(q, n, rb);
    }
  }

  lemma ItemsTyped(d: Datum)
    requires Typed(d)
    ensures Fits(d.schema, d.value)
    ensures forall k: nat :: k < |ItemsOf(d.value)| ==> HasType(Part(Parts(d.schema, d.value), k), ItemsOf(d.value)[k])
  {
  }

  lemma {:induction false} WrittenParts(d: Datum, rest: seq<Byte>)
    requires Typed(d)
    ensures Fits(d.schema, d.value)
    ensures Written(d) + rest == HeadOf(d.schema, d.value) + (ItemBytes(d, 0) + rest)
  {
    EncodingParts(d.schema, d.value, rest);
  }

  /** Containers of one code. */
  lemma {:induction false} CompareContainers(
      p: Datum, q: Datum, ra: seq<Byte>, rb: seq<Byte>, depth: nat, strict: bool)
    requires Alike(p, q) && IsContainer(p.schema) && ComparableItems(p, q, 0, strict)
    requires depth + 1 + Extra(p.schema) + RoomOfItems(p, q, 0) <= MAX_RECURSION
    ensures Compare(p.schema, q.schema, Written(p) + ra, Written(q) + rb, depth) == Decide(Rank(p, q), ra, rb)
    decreases p.value, 2
  {
    hide Compare, CompareKinds, CompareItems, CompareArray, Written, Typed, RankItems, ComparableItems, RoomOfItems,
      HeadOf, OrderHeads, ItemBytes, Fits;
    var s, v, w := p.schema, p.value, q.value;
    var a, b := ItemBytes(p, 0) + ra, ItemBytes(q, 0) + rb;
    WrittenParts(p, ra);
    WrittenParts(q, rb);
    CompareIsKinds(s, s, Written(p) + ra, Written(q) + rb, depth);
    RankOfContainers(p, q);
    if Bulk(s) {
      CompareArrayHead(s, v, w, a, b, depth + 1);
      if OrderHeads(s, v, w) == 0 {
        SameSizes(p, q);
        CompareArrayRanked(p, q, ra, rb, depth + 1, strict);
      }
    } else {
      var n := if |ItemsOf(v)| < |ItemsOf(w)| then |ItemsOf(v)| else |ItemsOf(w)|;
      CompareItemsRanked(p, q, 0, n, ra, rb, depth + 1 + Extra(s), strict);
      NextItem(p, |ItemsOf(v)|, ra);
      NextItem(q, |ItemsOf(w)|, rb);
      CompareOtherHeads(p, q, a, b, depth);
    }
  }

  lemma RankOfContainers(p: Datum, q: Datum)
    requires Alike(p, q) && IsContainer(p.schema)
    ensures Rank(p, q) ==
              if OrderHeads(p.schema, p.value, q.value) != 0 then OrderHeads(p.schema, p.value, q.value)
              else RankItems(p, q, 0)
  {
    hide Typed, OrderHeads, RankItems;
  }

  lemma {:induction false} SameSizes(p: Datum, q: Datum)
    requires Alike(p, q) && Bulk(p.schema) && OrderHeads(p.schema, p.value, q.value) == 0
    ensures |ItemsOf(p.value)| == |ItemsOf(q.value)|
  {
    if p.schema.Img? {
      SizesLaws(p.value.dims, q.value.dims);
    }
  }

  /** Tuples, maps and objects; an object is a map one level further down. */
  lemma {:induction false} CompareOtherHeads(p: Datum, q: Datum, a: seq<Byte>, b: seq<Byte>, depth: nat)
    requires Alike(p, q) && IsContainer(p.schema) && !Bulk(p.schema)
    requires depth + 1 + Extra(p.schema) <= MAX_RECURSION
    ensures OrderHeads(p.schema, p.value, q.value) == 0
    ensures var n, m := |ItemsOf(p.value)|, |ItemsOf(q.value)|;
            var parts := Parts(p.schema, p.value);
            var r := CompareItems(parts, parts, 0, if n < m then n else m, a, b, depth + 1 + Extra(p.schema));
            CompareKinds(p.schema, p.schema, HeadOf(p.schema, p.value) + a, HeadOf(p.schema, q.value) + b, depth + 1) ==
              if r.Same? then Decide(Sign(n, m), r.a, r.b) else r
  {
    hide CompareItems, Compare, Typed;
    ItemsTyped(p);
    ItemsTyped(q);
    if p.schema.Obj? {
      var fields := Assoc(Str, Dyn);
      ObjectHeads(p, q, a, b, depth + 1);
      CompareOtherHead(fields, p.value, q.value, a, b, depth + 2);
    } else {
      CompareOtherHead(p.schema, p.value, q.value, a, b, depth + 1);
    }
  }

  lemma {:induction false} ObjectHeads(p: Datum, q: Datum, a: seq<Byte>, b: seq<Byte>, depth: nat)
    requires Alike(p, q) && p.schema.Obj? && depth + 1 <= MAX_RECURSION
    ensures var fields := Assoc(Str, Dyn);
            && Fits(fields, p.value) && Fits(fields, q.value) && Fits(Obj, p.value) && Fits(Obj, q.value)
            && Parts(Obj, p.value) == Parts(fields, p.value)
            && CompareKinds(Obj, Obj, HeadOf(Obj, p.value) + a, HeadOf(Obj, q.value) + b, depth)
               == CompareKinds(fields, fields, HeadOf(fields, p.value) + a, HeadOf(fields, q.value) + b, depth + 1)
  {
    hide Compare;
    var fields := Assoc(Str, Dyn);
    var x, y := HeadOf(Obj, p.value) + a, HeadOf(Obj, q.value) + b;
    CompareIsKinds(fields, fields, x, y, depth);
  }

  /**
   Comparing two values gives their rank, whatever they are wrapped in and whatever follows them; if there
   is no difference both streams are left exactly at the ends of the values.
   */
  lemma {:induction false} CompareRanked(
      c: Datum, d: Datum, ra: seq<Byte>, rb: seq<Byte>, depth: nat, strict: bool)
    requires Typed(c) && Typed(d) && Comparable(c, d, strict) && depth + Room(c, d) <= MAX_RECURSION
    ensures Compare(c.schema, d.schema, Written(c) + ra, Written(d) + rb, depth) == Decide(Rank(c, d), ra, rb)
    decreases c.value, 3
  {
    hide Compare, Written, Typed, RankItems, ComparableItems, RoomOfItems, Inside, Layers, NumberOf, OrderHeads,
      Wrapping, KindCode;
    var p, q := Inside(c), Inside(d);
    var depth' := depth + Layers(c) + Layers(d);
    CompareUnwrapped(c, d, ra, rb, depth);
    if p.schema.Prim? && q.schema.Prim? {
      CompareTwoIntegers(p, q, ra, rb, depth');
    } else if p.schema.Prim? {
      CompareNumberFirst(p, q, ra, Written(q) + rb, depth');
    } else if p.schema != q.schema {
      CompareByCode(p.schema, q.schema, Written(p) + ra, Written(q) + rb, depth');
    } else if p.schema.Null? || p.schema.Str? {
      CompareLeaves(p, q, ra, rb, depth');
    } else {
      InsideIsInside(c);
      InsideIsInside(d);
      CompareContainers(p, q, ra, rb, depth', strict);
    }
  }

  lemma InsideIsInside(c: Datum)
    requires Typed(c)
    ensures Inside(Inside(c)) == Inside(c)
  {
  }

  /** Nulls and strings. */
  lemma {:induction false} CompareLeaves(p: Datum, q: Datum, ra: seq<Byte>, rb: seq<Byte>, depth: nat)
    requires Alike(p, q) && (p.schema.Null? || p.schema.Str?) && depth + 1 <= MAX_RECURSION
    ensures Compare(p.schema, q.schema, Written(p) + ra, Written(q) + rb, depth)
            == Decide(if p.schema.Null? then 0 else OrderHeads(p.schema, p.value, q.value), ra, rb)
    ensures p.schema.Str? ==> RankItems(p, q, 0) == 0
  {
    hide Compare, CompareKinds, OrderBytes;
    CompareIsKinds(p.schema, q.schema, Written(p) + ra, Written(q) + rb, depth);
    WrittenParts(p, ra);
    WrittenParts(q, rb);
    NextItem(p, 0, ra);
    NextItem(q, 0, rb);
    CompareHeadOnly(p.schema, p.value, q.value, ra, rb, depth + 1);
  }

  // ---------------------------------------------------------------------------------------------
  // Strictly comparable values

  /** Swapping two values turns the order around, and only a value itself is equal to it. */
  lemma {:induction false} RankLaws(c: Datum, d: Datum)
    requires Typed(c) && Typed(d) && c.schema == d.schema && Comparable(c, d, true)
    ensures Rank(c, d) == -Rank(d, c)
    ensures Rank(c, d) == 0 <==> c == d
    decreases c.value, 1
  {
    hide Typed, Inside, Wrapping, RankItems, ComparableItems, OrderHeads, NumberOf;
    var p, q := Inside(c), Inside(d);
    if p.schema == q.schema {
      InsideLaws(c, d);
      if Rank(c, d) == 0 {
        SameInside(c, d);
      }
    }
  }

  lemma {:induction false} InsideLaws(c: Datum, d: Datum)
    requires Typed(c) && Typed(d) && Comparable(c, d, true) && Inside(c).schema == Inside(d).schema
    ensures Rank(c, d) == -Rank(d, c)
    ensures Rank(c, d) == 0 <==> Inside(c) == Inside(d)
    decreases c.value, 0
  {
    hide Inside, Wrapping, RankItems, ComparableItems, OrderHeads, Typed, Number;
    var p, q := Inside(c), Inside(d);
    if p.schema.Prim? {
      EqualNumbers(p, q);
    } else if p.schema.Null? {
      OnlyNull(p);
      OnlyNull(q);
    } else {
      DatumHeads(p, q);
      if p.schema.Str? {
        StringItems(p, q);
      } else {
        ItemsRankLaws(p, q, 0);
        assert ItemsOf(p.value)[0..] == ItemsOf(p.value) && ItemsOf(q.value)[0..] == ItemsOf(q.value);
      }
    }
  }

  lemma OnlyNull(p: Datum)
    requires Typed(p) && p.schema.Null?
    ensures p == NOTHING
  {
  }

  lemma StringItems(p: Datum, q: Datum)
    requires Alike(p, q) && p.schema.Str?
    ensures RankItems(p, q, 0) == 0 && RankItems(q, p, 0) == 0 && ItemsOf(p.value) == ItemsOf(q.value)
  {
  }

  lemma {:induction false} EqualNumbers(p: Datum, q: Datum)
    requires Typed(p) && Typed(q) && p.schema == q.schema && p.schema.Prim? && IsNumber(p.schema.kind)
    requires NumberOf(p) == NumberOf(q) ==> NoOddBool(p) && NoOddBool(q)
    ensures NumberOf(p) == NumberOf(q) <==> p == q
  {
    if NumberOf(p) == NumberOf(q) {
      NumberIsInjective(p.schema.kind, p.value.bytes, q.value.bytes);
    }
  }

  /** Heads are ordered, and equal heads and items are equal values. */
  lemma {:induction false} DatumHeads(p: Datum, q: Datum)
    requires Alike(p, q) && (p.schema.Str? || IsContainer(p.schema))
    ensures var (x, y) := (OrderHeads(p.schema, p.value, q.value), OrderHeads(p.schema, q.value, p.value));
            x == -y && (x == 0 && ItemsOf(p.value) == ItemsOf(q.value) <==> p == q)
  {
    match p.schema
    case Str => BytesLaws(p.value.bytes, q.value.bytes);
    case Img(_, _) => SizesLaws(p.value.dims, q.value.dims);
    case _ =>
  }

  lemma {:induction false} ItemsRankLaws(p: Datum, q: Datum, i: nat)
    requires Alike(p, q) && ComparableItems(p, q, i, true)
    requires i <= |ItemsOf(p.value)| && i <= |ItemsOf(q.value)|
    ensures RankItems(p, q, i) == -RankItems(q, p, i)
    ensures RankItems(p, q, i) == 0 <==> ItemsOf(p.value)[i..] == ItemsOf(q.value)[i..]
    decreases p.value, 0, |ItemsOf(p.value)| - i
  {
    hide Typed, Rank, RankItems, Comparable, ComparableItems, Room, RoomOfItems, Parts, Part;
    var a, b := ItemsOf(p.value), ItemsOf(q.value);
    SameParts(p, q);
    ItemsNext(p, q, i, true);
    ItemsNext(q, p, i, true);
    if i < |a| && i < |b| {
      var c, d := ItemOf(p, i), ItemOf(q, i);
      RankLaws(c, d);
      ItemsRankLaws(p, q, i + 1);
      assert a[i..] == [a[i]] + a[i + 1..] && b[i..] == [b[i]] + b[i + 1..];
    } else {
      assert a[i..] == b[i..] ==> |a| == |b|;
    }
  }

  /** The wrappers and what is inside make up the value. */
  lemma {:induction false} SameInside(c: Datum, d: Datum)
    requires Typed(c) && Typed(d) && c.schema == d.schema && Inside(c) == Inside(d) && Wrapping(c) == Wrapping(d)
    ensures c == d
  {
    WrittenInside(c);
    WrittenInside(d);
    assert Written(c) + [] == Written(c) && Written(d) + [] == Written(d);
    EncodingIsUnique(c.schema, c.value, d.value, [], []);
  }
}

/** What `compare` says about dynamic values, optionals and objects, and about Variants that hold objects. */
module Objects {
  import opened Bytes
  import opened ByteCode
  import opened Schemas
  import opened Wire
  import opened CopySpec
  import opened CopyLaws
  import opened Ordering
  import opened CompareSpec
  import opened CompareLaws
  import opened CompareDynamics
  import opened Variants

  /** A dynamic value: the code and what it holds. */
  predicate HoldsCode(code: seq<Cell>, v: Value) {
    ValidDynamicCode(code) && HasType(SchemaOf(code), v)
  }

  lemma {:induction false} DynamicHolds(code: seq<Cell>, v: Value)
    requires HoldsCode(code, v)
    ensures var d := Datum(Dyn, Dynamic(code, v));
            Typed(d) && Held(d) == Datum(SchemaOf(code), v) && Written(d) == Head(code) + Encode(SchemaOf(code), v)
  {
    hide Encode;
    var d := Datum(Dyn, Dynamic(code, v));
    ValidateDecides(code, NoType, 0, 0);
    DynamicTyped(code, v);
    WrittenHeld(d);
  }

  lemma {:induction false} DynamicTyped(code: seq<Cell>, v: Value)
    requires HoldsCode(code, v) && WellFormed(code, NoType, 0)
    ensures Typed(Datum(Dyn, Dynamic(code, v)))
  {
    hide Decode, WellFormed, Validate;
    var d := Dynamic(code, v);
    assert ItemsOf(d) == [v] && Part(Parts(Dyn, d), 0) == SchemaOf(code);
  }

  function Head(code: seq<Cell>): seq<Byte> {
    LittleEndian(|code|, 2) + CellBytes(code)
  }

  /**
   Two dynamic values of one code compare as what they hold: in its order, equal exactly if they are
   written the same, and then both streams are left exactly at their ends.
   */
  lemma {:induction false} DynamicsCompare(
      code: seq<Cell>, v: Value, w: Value, ra: seq<Byte>, rb: seq<Byte>, depth: nat)
    requires ValidDynamicCode(code) && InOrder(SchemaOf(code), v) && InOrder(SchemaOf(code), w)
    requires depth + 2 + Depth(SchemaOf(code)) <= MAX_RECURSION
    ensures var s := SchemaOf(code);
            var a, b := Head(code) + Encode(s, v), Head(code) + Encode(s, w);
            && Compare(Dyn, Dyn, a + ra, b + rb, depth) == Decide(Order(s, v, w), ra, rb)
            && (Order(s, v, w) == 0 <==> a == b)
  {
    hide Compare, Encode, Typed, Held, Order, HasType, Canonical, SchemaOf, ValidDynamicCode;
    var s := SchemaOf(code);
    var c, d := Datum(Dyn, Dynamic(code, v)), Datum(Dyn, Dynamic(code, w));
    DynamicHolds(code, v);
    DynamicHolds(code, w);
    CompareUnwrapped(c, d, ra, rb, depth);
    OneLayer(c);
    OneLayer(d);
    CompareEncoded(s, v, w, ra, rb, depth + 2);
    EqualMeansSameBytes(s, v, w, ra, rb, depth + 2);
    OrderLaws(s, v, w);
    SameTail(Head(code), Encode(s, v), Encode(s, w));
  }

  lemma {:induction false} OneLayer(d: Datum)
    requires Typed(d) && Wrapped(d) && Ordered(Held(d).schema)
    ensures Inside(d) == Held(d) && Layers(d) == 1
  {
    hide Typed, Held;
  }

  lemma SameTail(head: seq<Byte>, a: seq<Byte>, b: seq<Byte>)
    ensures head + a == head + b <==> a == b
  {
    assert (head + a)[|head|..] == a && (head + b)[|head|..] == b;
  }

  /** Dynamic integers of any two codes compare as integers do. */
  lemma {:induction false} DynamicIntegersCompare(
      s: Cell, a: seq<Byte>, t: Cell, b: seq<Byte>, ra: seq<Byte>, rb: seq<Byte>, depth: nat)
    requires IsNumber(s) && IsNumber(t) && !IsAlt(s) && !IsAlt(t) && |a| == Width(s) && |b| == Width(t)
    requires depth + 3 <= MAX_RECURSION
    ensures Compare(Dyn, Dyn, Head([s]) + a + ra, Head([t]) + b + rb, depth)
            == Decide(CompareNumbers(s, Number(s, a), t, Number(t, b)), ra, rb)
  {
    hide Compare, Typed, Held, Number;
    NumberHeld(s, a);
    NumberHeld(t, b);
    var c, d := Datum(Dyn, Dynamic([s], Raw(a))), Datum(Dyn, Dynamic([t], Raw(b)));
    CompareUnwrapped(c, d, ra, rb, depth);
    CompareTwoIntegers(Inside(c), Inside(d), ra, rb, depth + 2);
  }

  lemma {:induction false} NumberHeld(kind: Cell, bytes: seq<Byte>)
    requires IsNumber(kind) && !IsAlt(kind) && |bytes| == Width(kind)
    ensures var d := Datum(Dyn, Dynamic([kind], Raw(bytes)));
            && Typed(d) && Inside(d) == Datum(Prim(kind), Raw(bytes)) && Typed(Inside(d)) && Layers(d) == 1
            && Written(d) == Head([kind]) + bytes && NumberOf(Inside(d)) == Number(kind, bytes)
  {
    hide Number, ValidDynamicCode, SchemaOf;
    NumberCode(kind);
    assert HasType(Prim(kind), Raw(bytes));
    DynamicHolds([kind], Raw(bytes));
    assert EncodeItems([], Raw(bytes), 0) == [];
    assert Encode(Prim(kind), Raw(bytes)) == bytes;
    var d := Datum(Dyn, Dynamic([kind], Raw(bytes)));
    hide Typed, Held;
    assert Held(d) == Datum(Prim(kind), Raw(bytes));
  }

  // ---------------------------------------------------------------------------------------------
  // Optionals

  /** An optional with no value, or one that holds x. */
  function Maybe(elem: Schema, x: Option<Value>): (d: Datum)
    requires x.Some? ==> HasType(elem, x.value)
    ensures d.schema == Opt(elem) && Typed(d) && Held(d) == if x.None? then NOTHING else Datum(elem, x.value)
  {
    Datum(Opt(elem), Items(if x.None? then [] else [x.value]))
  }

  lemma {:induction false} MaybeWritten(elem: Schema, x: Option<Value>)
    requires x.Some? ==> HasType(elem, x.value)
    ensures Written(Maybe(elem, x)) == if x.None? then [0] else [1] + Encode(elem, x.value)
  {
    hide Encode, HasType;
    WrittenHeld(Maybe(elem, x));
    if x.None? {
      assert Encode(Null, Raw([])) == [] by {
        NothingWritten();
      }
    }
  }

  /**
   Optionals compare by their flags first: two without a value are equal, two with one compare as the
   values, and null comes before everything. A number comes before null all the same.
   */
  lemma {:induction false} OptionalsCompare(
      elem: Schema, x: Option<Value>, y: Option<Value>, ra: seq<Byte>, rb: seq<Byte>, depth: nat)
    requires Ordered(elem) && (x.Some? ==> InOrder(elem, x.value)) && (y.Some? ==> InOrder(elem, y.value))
    requires depth + 2 + Depth(elem) <= MAX_RECURSION
    ensures var r := Compare(Opt(elem), Opt(elem), Written(Maybe(elem, x)) + ra, Written(Maybe(elem, y)) + rb, depth);
            if x.None? && y.None? then r == Same(ra, rb)
            else if x.Some? && y.Some? then r == Decide(Order(elem, x.value, y.value), ra, rb)
            else if elem.Null? then r == Same(ra, rb)
            else if x.None? || elem.Prim? then r == Differ(-1)
            else elem.Str? || r == Differ(1)
  {
    hide Compare, Encode, Typed, Held, HasType, Canonical, Order, Maybe;
    var c, d := Maybe(elem, x), Maybe(elem, y);
    CompareUnwrapped(c, d, ra, rb, depth);
    OneLayer(c);
    OneLayer(d);
    NothingWritten();
    assert depth + Layers(c) + Layers(d) == depth + 2;
    if x.Some? && y.Some? {
      CompareEncoded(elem, x.value, y.value, ra, rb, depth + 2);
    } else {
      CompareWithNull(Held(c), Held(d), ra, rb, depth + 2);
    }
  }

  /** Null against a value of an ordered type, from either side. */
  lemma {:induction false} CompareWithNull(p: Datum, q: Datum, ra: seq<Byte>, rb: seq<Byte>, depth: nat)
    requires Typed(p) && Typed(q) && Ordered(p.schema) && Ordered(q.schema) && depth + 1 <= MAX_RECURSION
    requires p == NOTHING || q == NOTHING
    ensures var r := Compare(p.schema, q.schema, Written(p) + ra, Written(q) + rb, depth);
            if p.schema.Null? && q.schema.Null? then r == Same(ra, rb)
            else if p.schema.Null? || p.schema.Prim? then r == Differ(-1)
            else p.schema.Str? || r == Differ(1)
  {
    hide Compare, Written, Typed;
    if p.schema.Null? && q.schema.Null? {
      CompareLeaves(p, q, ra, rb, depth);
    } else if p.schema.Prim? {
      CompareNumberFirst(p, q, ra, Written(q) + rb, depth);
    } else if !p.schema.Str? {
      CompareByCode(p.schema, q.schema, Written(p) + ra, Written(q) + rb, depth);
    }
  }

  /**
   A number comes before everything that is no number. Seen from the other side it comes after, as it should,
   exactly if its code is the smaller one; otherwise each of the two comes before the other.
   */
  lemma {:induction false} NumberAgainstOther(
      p: Datum, q: Datum, ra: seq<Byte>, rb: seq<Byte>, depth: nat)
    requires Typed(p) && Typed(q) && p.schema.Prim? && IsNumber(p.schema.kind) && !Wrapped(q)
    requires !q.schema.Prim? && !q.schema.Str? && !q.schema.Any? && !q.schema.Foreign? && depth + 1 <= MAX_RECURSION
    ensures Compare(p.schema, q.schema, Written(p) + ra, Written(q) + rb, depth) == Differ(-1)
    ensures Compare(q.schema, p.schema, Written(q) + rb, Written(p) + ra, depth) == Differ(1)
            <==> p.schema.kind < KindCode(q.schema)
    ensures q.schema.Null? ==>
              Compare(q.schema, p.schema, Written(q) + rb, Written(p) + ra, depth) == Differ(-1)
  {
    hide Compare, Written, Typed;
    CompareNumberFirst(p, q, ra, Written(q) + rb, depth);
    NumberCodes(p.schema.kind, q.schema);
    CompareByCode(q.schema, p.schema, Written(q) + rb, Written(p) + ra, depth);
  }

  lemma NumberCodes(kind: Cell, s: Schema)
    requires IsNumber(kind) && !s.Prim? && !s.Foreign? && !s.Any?
    ensures KindCode(s) != kind && (s.Null? ==> KindCode(s) < kind)
  {
  }

  // ---------------------------------------------------------------------------------------------
  // Objects

  lemma {:induction false} ObjectCode()
    ensures ValidDynamicCode([CODE_OBJECT]) && SchemaOf([CODE_OBJECT]) == Obj
  {
    var code := [CODE_OBJECT];
    assert Fetch(code, NoType, 0) == Ok(Instr(CODE_OBJECT, false, [], 0));
    ValidateDecides(code, NoType, 0, 0);
    DecodeSimple(code, NoType, 0);
  }

  /** A Variant that holds an object: names and dynamic values in turn. */
  function ObjectVariant(fields: Value): (x: Variant)
    requires HasType(Obj, fields)
    ensures ValidVariant(x)
  {
    ObjectCode();
    Holding([CODE_OBJECT], Encode(Obj, fields))
  }

  /**
   Variants that hold objects are ordered by their fields, the names and what the values hold; they are
   equal exactly if their data is the same.
   */
  lemma {:induction false} ObjectsCompare(v: Value, w: Value)
    requires HasType(Obj, v) && HasType(Obj, w) && Comparable(Datum(Obj, v), Datum(Obj, w), true)
    requires Room(Datum(Obj, v), Datum(Obj, w)) <= MAX_RECURSION
    ensures var x, y := ObjectVariant(v), ObjectVariant(w);
            var order := Rank(Datum(Obj, v), Datum(Obj, w));
            && CompareValues(x, y) == Some(order) && Less(x, y) == Some(order < 0)
            && Equal(x, y) == Some(order == 0) && AtMost(x, y) == Some(order <= 0)
            && (order == 0 <==> Data(x) == Data(y)) && order == -Rank(Datum(Obj, w), Datum(Obj, v))
  {
    hide Compare, Encode, HasType, Comparable, Room, Rank, ValidDynamicCode, SchemaOf;
    var c, d := Datum(Obj, v), Datum(Obj, w);
    ObjectCode();
    CompareRanked(c, d, [], [], 0, true);
    RankLaws(c, d);
    assert Written(c) + [] == Written(c) && Written(d) + [] == Written(d);
    if Written(c) == Written(d) {
      EncodingIsUnique(Obj, v, w, [], []);
    }
    SameTail(Head([CODE_OBJECT]), Written(c), Written(d));
  }

  predicate Is64Bit(n: int) {
    -0x8000_0000_0000_0000 <= n < 0x1_0000_0000_0000_0000
  }

  /** An integer as the value of a field. */
  function IntegerField(n: int): (v: Value)
    requires Is64Bit(n)
    ensures v.Dynamic?
  {
    Dynamic(IntegerVariant(n).code, Raw(IntegerVariant(n).bytes))
  }

  lemma {:induction false} IntegerFieldHolds(n: int)
    requires Is64Bit(n)
    ensures var d, kind := Datum(Dyn, IntegerField(n)), NarrowestCode(n);
            && Typed(d) && Layers(d) == 1 && Inside(d).schema == Prim(kind) && NumberOf(Inside(d)) == n
            && IsNumber(kind) && (IsSigned(kind) <==> n < 0)
            && Wrapping(d) == Head([kind]) && NoOddBool(Inside(d))
  {
    hide LittleEndian, FromLittleEndian, Number;
    Pow256Values();
    Pow256Large();
    var kind, bytes := NarrowestCode(n), IntegerVariant(n).bytes;
    NumberHeld(kind, bytes);
    ReadBackNumber(kind, n);
    var d := Datum(Dyn, IntegerField(n));
    WrittenInside(d);
    EncodedNumber(kind, Raw(bytes), []);
  }

  /** An object with one field. */
  function OneField(name: seq<Byte>, n: int): Value
    requires Is64Bit(n)
  {
    Items([Raw(name), IntegerField(n)])
  }

  lemma {:induction false} OneFieldTyped(name: seq<Byte>, n: int)
    requires Is64Bit(n) && |name| <= MAX_SIZE
    ensures var d := Datum(Obj, OneField(name, n));
            && Typed(d) && ItemOf(d, 0) == Datum(Str, Raw(name)) && ItemOf(d, 1) == Datum(Dyn, IntegerField(n))
  {
    hide IntegerField;
    IntegerFieldHolds(n);
    var v := OneField(name, n);
    assert HasType(Str, Raw(name));
    forall i: nat | i < |ItemsOf(v)|
      ensures HasType(Part(Parts(Obj, v), i), ItemsOf(v)[i])
    {
    }
  }

  /** Objects with one integer field: the name first and then the number, unless one wraps below the other. */
  lemma {:induction false} OneFieldCompares(a: seq<Byte>, n: int, b: seq<Byte>, m: int)
    requires Is64Bit(n) && Is64Bit(m) && |a| <= MAX_SIZE && |b| <= MAX_SIZE
    requires !WrapsBelow(n, m) && !WrapsBelow(m, n)
    ensures HasType(Obj, OneField(a, n)) && HasType(Obj, OneField(b, m))
    ensures var x, y := ObjectVariant(OneField(a, n)), ObjectVariant(OneField(b, m));
            && Less(x, y) == Some(OrderBytes(a, b) < 0 || (a == b && n < m))
            && Equal(x, y) == Some(a == b && n == m)
  {
    hide HasType, IntegerField, NumberOf, OrderBytes, ObjectVariant, Less, Equal, CompareValues, Data;
    var c, d := Datum(Obj, OneField(a, n)), Datum(Obj, OneField(b, m));
    OneFieldTyped(a, n);
    OneFieldTyped(b, m);
    NamesRanked(a, b);
    NumbersRanked(n, m);
    FieldsRanked(c, d);
    BytesLaws(a, b);
    ObjectsCompare(c.value, d.value);
  }

  lemma {:induction false} NamesRanked(a: seq<Byte>, b: seq<Byte>)
    requires |a| <= MAX_SIZE && |b| <= MAX_SIZE
    ensures var c, d := Datum(Str, Raw(a)), Datum(Str, Raw(b));
            Typed(c) && Typed(d) && Comparable(c, d, true) && Rank(c, d) == OrderBytes(a, b) && Room(c, d) == 1
  {
    hide OrderBytes;
    var c, d := Datum(Str, Raw(a)), Datum(Str, Raw(b));
    assert Typed(c) && Typed(d);
    assert RankItems(c, d, 0) == 0 && RoomOfItems(c, d, 0) == 0;
  }

  lemma {:induction false} NumbersRanked(n: int, m: int)
    requires Is64Bit(n) && Is64Bit(m) && !WrapsBelow(n, m) && !WrapsBelow(m, n)
    ensures var c, d := Datum(Dyn, IntegerField(n)), Datum(Dyn, IntegerField(m));
            Typed(c) && Typed(d) && Comparable(c, d, true) && Rank(c, d) == Sign(n, m) && Room(c, d) == 3
  {
    hide Typed, Inside, Layers, NumberOf, IntegerField, NoOddBool, Wrapping, IsNumber, RoomOfItems;
    IntegerFieldHolds(n);
    IntegerFieldHolds(m);
    WrapSmall(n);
    WrapSmall(m);
    var c, d := Datum(Dyn, IntegerField(n)), Datum(Dyn, IntegerField(m));
    NumbersHaveNoItems(Inside(c), Inside(d));
  }

  lemma NumbersHaveNoItems(p: Datum, q: Datum)
    requires Typed(p) && Typed(q) && p.schema.Prim?
    ensures RoomOfItems(p, q, 0) == 0
  {
  }

  lemma {:induction false} FieldsRanked(c: Datum, d: Datum)
    requires Typed(c) && Typed(d) && c.schema == d.schema == Obj
    requires |ItemsOf(c.value)| == 2 && |ItemsOf(d.value)| == 2
    ensures var x, y := ItemOf(c, 0), ItemOf(d, 0);
            var v, w := ItemOf(c, 1), ItemOf(d, 1);
            && Rank(c, d) == (if Rank(x, y) != 0 then Rank(x, y) else Rank(v, w))
            && (Comparable(x, y, true) && Comparable(v, w, true) ==> Comparable(c, d, true))
            && Room(c, d) == 2 + Max(Room(x, y), Room(v, w))
  {
    hide Typed, Rank, Room, Comparable, RankItems, RoomOfItems, ComparableItems;
    ObjectRank(c, d);
    TwoItems(c, d);
  }

  lemma ObjectRank(c: Datum, d: Datum)
    requires Typed(c) && Typed(d) && c.schema == d.schema == Obj
    ensures Rank(c, d) == RankItems(c, d, 0) && Room(c, d) == 2 + RoomOfItems(c, d, 0)
    ensures Comparable(c, d, true) == ComparableItems(c, d, 0, true)
  {
    hide Typed, RankItems, RoomOfItems, ComparableItems;
  }

  lemma {:induction false} TwoItems(c: Datum, d: Datum)
    requires Typed(c) && Typed(d) && |ItemsOf(c.value)| == 2 && |ItemsOf(d.value)| == 2
    ensures var x, y := ItemOf(c, 0), ItemOf(d, 0);
            var v, w := ItemOf(c, 1), ItemOf(d, 1);
            && RankItems(c, d, 0) == (if Rank(x, y) != 0 then Rank(x, y) else Rank(v, w))
            && RoomOfItems(c, d, 0) == Max(Room(x, y), Room(v, w))
            && (Comparable(x, y, true) && Comparable(v, w, true) ==> ComparableItems(c, d, 0, true))
  {
    hide Typed, Rank, Room, Comparable;
    assert ComparableItems(c, d, 2, true) && RankItems(c, d, 2) == 0 && RoomOfItems(c, d, 2) == 0;
  }
}

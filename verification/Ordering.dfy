/** The order of values of one type: numbers by value, strings by bytes, containers item by item. */
module Ordering {
  import opened Bytes
  import opened ByteCode
  import opened Schemas
  import opened Wire

  function Sign(a: int, b: int): int {
    if a < b then -1 else if a > b then 1 else 0
  }

  predicate IsFloat(kind: Cell) {
    kind == CODE_FLOAT || kind == CODE_DOUBLE
  }

  predicate IsSigned(kind: Cell) {
    CODE_INT8 <= Base(kind) <= CODE_INT64
  }

  predicate IsNumber(kind: Cell) {
    Width(kind) > 0 && !IsFloat(kind)
  }

  /** The number in the bytes of an integer, in two's complement if it is signed. */
  function Number(kind: Cell, bytes: seq<Byte>): int {
    var n := FromLittleEndian(bytes);
    if Base(kind) == CODE_BOOL then (if n == 0 then 0 else 1)
    else if IsSigned(kind) && 2 * n >= Pow256(|bytes|) then n - Pow256(|bytes|)
    else n
  }

  /** Types whose values are ordered; booleans must be written as 0 or 1. */
  predicate Ordered(s: Schema) {
    match s
    case Null => true
    case Str => true
    case Prim(kind) => IsNumber(kind)
    case Arr(_, elem) => Ordered(elem)
    case Lst(elem) => Ordered(elem)
    case Assoc(key, value) => Ordered(key) && Ordered(value)
    case Mat(_, elem) => Ordered(elem)
    case Img(_, elem) => Ordered(elem)
    case Tup(elems) => forall e :: e in elems ==> Ordered(e)
    case _ => false
  }

  predicate Canonical(s: Schema, v: Value)
    decreases v
  {
    && (s.Prim? && Base(s.kind) == CODE_BOOL && v.Raw? && |v.bytes| == 1 ==> v.bytes[0] <= 1)
    && forall i: nat :: i < |ItemsOf(v)| ==> Canonical(Part(Parts(s, v), i), ItemsOf(v)[i])
  }

  /** A value that takes part in the order. */
  predicate InOrder(s: Schema, v: Value) {
    Ordered(s) && HasType(s, v) && Canonical(s, v)
  }

  function OrderBytes(a: seq<Byte>, b: seq<Byte>): int {
    if a == [] || b == [] then Sign(|a|, |b|)
    else if a[0] != b[0] then Sign(a[0], b[0])
    else OrderBytes(a[1..], b[1..])
  }

  function OrderSizes(a: seq<nat>, b: seq<nat>): int {
    if a == [] || b == [] then Sign(|a|, |b|)
    else if a[0] != b[0] then Sign(a[0], b[0])
    else OrderSizes(a[1..], b[1..])
  }

  /** The order as far as the heads decide it. */
  function OrderHeads(s: Schema, v: Value, w: Value): int {
    match s
    case Prim(kind) => if v.Raw? && w.Raw? then Sign(Number(kind, v.bytes), Number(kind, w.bytes)) else 0
    case Str => if v.Raw? && w.Raw? then OrderBytes(v.bytes, w.bytes) else 0
    case Lst(_) => Sign(|ItemsOf(v)|, |ItemsOf(w)|)
    case Img(_, _) => if v.Pixels? && w.Pixels? then OrderSizes(v.dims, w.dims) else 0
    case _ => 0
  }

  function Order(s: Schema, v: Value, w: Value): int
    decreases v, 1
  {
    if OrderHeads(s, v, w) != 0 then OrderHeads(s, v, w) else OrderItems(Parts(s, v), v, w, 0)
  }

  /** From the i-th item on: the first difference decides, then the number of items. */
  function OrderItems(parts: seq<Schema>, v: Value, w: Value, i: nat): int
    decreases v, 0, |ItemsOf(v)| - i
  {
    if i >= |ItemsOf(v)| || i >= |ItemsOf(w)| then Sign(|ItemsOf(v)|, |ItemsOf(w)|)
    else
      var first := Order(Part(parts, i), ItemsOf(v)[i], ItemsOf(w)[i]);
      if first != 0 then first else OrderItems(parts, v, w, i + 1)
  }

  // ---------------------------------------------------------------------------------------------
  // Numbers and strings

  lemma {:induction false} SameNumber(a: seq<Byte>, b: seq<Byte>)
    requires |a| == |b| && FromLittleEndian(a) == FromLittleEndian(b)
    ensures a == b
  {
    WriteBackInteger(a);
    WriteBackInteger(b);
  }

  lemma {:induction false} NumberIsInjective(kind: Cell, a: seq<Byte>, b: seq<Byte>)
    requires IsNumber(kind) && |a| == |b| == Width(kind) && Number(kind, a) == Number(kind, b)
    requires Base(kind) == CODE_BOOL ==> a[0] <= 1 && b[0] <= 1
    ensures a == b
  {
    if Base(kind) == CODE_BOOL {
      assert FromLittleEndian(a) == a[0] + 256 * FromLittleEndian(a[1..]) && a[1..] == [];
      assert FromLittleEndian(b) == b[0] + 256 * FromLittleEndian(b[1..]) && b[1..] == [];
    }
    SameNumber(a, b);
  }

  lemma {:induction false} BytesLaws(a: seq<Byte>, b: seq<Byte>)
    ensures OrderBytes(a, b) == -OrderBytes(b, a) && (OrderBytes(a, b) == 0 <==> a == b)
  {
    if a != [] && b != [] && a[0] == b[0] {
      BytesLaws(a[1..], b[1..]);
      assert a == [a[0]] + a[1..] && b == [b[0]] + b[1..];
    }
  }

  lemma {:induction false} BytesTransitive(a: seq<Byte>, b: seq<Byte>, c: seq<Byte>)
    requires OrderBytes(a, b) <= 0 && OrderBytes(b, c) <= 0
    ensures OrderBytes(a, c) <= 0
  {
    if a != [] && b != [] && c != [] && a[0] == b[0] == c[0] {
      BytesTransitive(a[1..], b[1..], c[1..]);
    }
  }

  lemma {:induction false} SizesLaws(a: seq<nat>, b: seq<nat>)
    ensures OrderSizes(a, b) == -OrderSizes(b, a) && (OrderSizes(a, b) == 0 <==> a == b)
  {
    if a != [] && b != [] && a[0] == b[0] {
      SizesLaws(a[1..], b[1..]);
      assert a == [a[0]] + a[1..] && b == [b[0]] + b[1..];
    }
  }

  lemma {:induction false} SizesTransitive(a: seq<nat>, b: seq<nat>, c: seq<nat>)
    requires OrderSizes(a, b) <= 0 && OrderSizes(b, c) <= 0
    ensures OrderSizes(a, c) <= 0
  {
    if a != [] && b != [] && c != [] && a[0] == b[0] == c[0] {
      SizesTransitive(a[1..], b[1..], c[1..]);
    }
  }

  /** Strings compare at the first byte in which they differ, or else by their lengths. */
  lemma {:induction false} BytesExactly(a: seq<Byte>, b: seq<Byte>, k: nat)
    requires k <= |a| && k <= |b| && a[..k] == b[..k]
    requires k < |a| && k < |b| ==> a[k] != b[k]
    ensures OrderBytes(a, b) ==
              if k < |a| && k < |b| then (if a[k] < b[k] then -1 else 1)
              else if |a| == |b| then 0
              else if k == |a| then -1
              else 1
  {
    if k > 0 {
      assert a[..k][0] == a[0] && b[..k][0] == b[0];
      assert a[1..][..k - 1] == a[..k][1..] && b[1..][..k - 1] == b[..k][1..];
      BytesExactly(a[1..], b[1..], k - 1);
    }
  }

  /** Dimensions compare like the bytes of strings. */
  lemma {:induction false} SizesExactly(a: seq<nat>, b: seq<nat>, k: nat)
    requires k <= |a| && k <= |b| && a[..k] == b[..k]
    requires k < |a| && k < |b| ==> a[k] != b[k]
    ensures OrderSizes(a, b) ==
              if k < |a| && k < |b| then (if a[k] < b[k] then -1 else 1)
              else if |a| == |b| then 0
              else if k == |a| then -1
              else 1
  {
    if k > 0 {
      assert a[..k][0] == a[0] && b[..k][0] == b[0];
      assert a[1..][..k - 1] == a[..k][1..] && b[1..][..k - 1] == b[..k][1..];
      SizesExactly(a[1..], b[1..], k - 1);
    }
  }

  /** Integers compare by value: the unsigned ones, and in two's complement the signed ones. */
  lemma {:induction false} IntegersExactly(kind: Cell, v: Value, w: Value)
    requires InOrder(Prim(kind), v) && InOrder(Prim(kind), w)
    ensures var n, m := Number(kind, v.bytes), Number(kind, w.bytes);
            Order(Prim(kind), v, w) == if n < m then -1 else if n == m then 0 else 1
    ensures var n, size := FromLittleEndian(v.bytes), Pow256(|v.bytes|);
            Number(kind, v.bytes) ==
              if kind in {CODE_INT8, CODE_INT16, CODE_INT32, CODE_INT64, Flip(CODE_INT8)} && 2 * n >= size then n - size
              else n
  {
    if Base(kind) == CODE_BOOL {
      assert v.bytes[1..] == [] && FromLittleEndian(v.bytes) == v.bytes[0] + 256 * FromLittleEndian(v.bytes[1..]);
    }
  }

  // ---------------------------------------------------------------------------------------------
  // A total order

  lemma {:induction false} HeadsLaws(s: Schema, v: Value, w: Value)
    requires InOrder(s, v) && InOrder(s, w)
    ensures OrderHeads(s, v, w) == -OrderHeads(s, w, v)
    ensures OrderHeads(s, v, w) == 0 ==>
              (v.Raw? && v == w) || (v.Items? && w.Items?) || (v.Pixels? && w.Pixels? && v.dims == w.dims)
    ensures v == w ==> OrderHeads(s, v, w) == 0
  {
    match s
    case Prim(kind) =>
      if Number(kind, v.bytes) == Number(kind, w.bytes) {
        NumberIsInjective(kind, v.bytes, w.bytes);
      }
    case Str => BytesLaws(v.bytes, w.bytes);
    case Img(_, _) => SizesLaws(v.dims, w.dims);
    case _ =>
  }

  lemma {:induction false} HeadsTransitive(s: Schema, u: Value, v: Value, w: Value)
    requires InOrder(s, u) && InOrder(s, v) && InOrder(s, w)
    requires OrderHeads(s, u, v) <= 0 && OrderHeads(s, v, w) <= 0
    ensures OrderHeads(s, u, w) <= 0
    ensures OrderHeads(s, u, w) == 0 ==> OrderHeads(s, u, v) == 0 && OrderHeads(s, v, w) == 0
  {
    match s
    case Str =>
      BytesTransitive(u.bytes, v.bytes, w.bytes);
      BytesLaws(u.bytes, w.bytes);
      BytesLaws(u.bytes, v.bytes);
    case Img(_, _) =>
      SizesTransitive(u.dims, v.dims, w.dims);
      SizesLaws(u.dims, w.dims);
      SizesLaws(u.dims, v.dims);
    case _ =>
  }

  /** The parts of an ordered type do not depend on the value, and the items are in order. */
  lemma {:induction false} ItemsInOrder(s: Schema, v: Value, w: Value)
    requires InOrder(s, v)
    ensures Parts(s, w) == Parts(s, v)
    ensures forall i: nat :: i < |ItemsOf(v)| ==> InOrder(Part(Parts(s, v), i), ItemsOf(v)[i])
  {
    hide Canonical;
    CanonicalItems(s, v);
    match s
    case Tup(elems) =>
    case _ =>
  }

  lemma CanonicalItems(s: Schema, v: Value)
    requires Canonical(s, v)
    ensures forall i: nat :: i < |ItemsOf(v)| ==> Canonical(Part(Parts(s, v), i), ItemsOf(v)[i])
  {
  }

  /** Values that compare equal are equal, and swapping two values turns the order around. */
  lemma {:induction false} OrderLaws(s: Schema, v: Value, w: Value)
    requires InOrder(s, v) && InOrder(s, w)
    ensures Order(s, v, w) == -Order(s, w, v)
    ensures Order(s, v, w) == 0 <==> v == w
    decreases v, 1
  {
    hide HasType, Ordered, Canonical, OrderHeads, Parts;
    HeadsLaws(s, v, w);
    ItemsInOrder(s, v, w);
    ItemsInOrder(s, w, v);
    ItemsLaws(Parts(s, v), v, w, 0);
  }

  lemma {:induction false} ItemsLaws(parts: seq<Schema>, v: Value, w: Value, i: nat)
    requires i <= |ItemsOf(v)| && i <= |ItemsOf(w)|
    requires forall k: nat :: i <= k < |ItemsOf(v)| ==> InOrder(Part(parts, k), ItemsOf(v)[k])
    requires forall k: nat :: i <= k < |ItemsOf(w)| ==> InOrder(Part(parts, k), ItemsOf(w)[k])
    ensures OrderItems(parts, v, w, i) == -OrderItems(parts, w, v, i)
    ensures OrderItems(parts, v, w, i) == 0 <==> ItemsOf(v)[i..] == ItemsOf(w)[i..]
    decreases v, 0, |ItemsOf(v)| - i
  {
    hide InOrder, Order;
    var a, b := ItemsOf(v), ItemsOf(w);
    if i < |a| && i < |b| {
      OrderLaws(Part(parts, i), a[i], b[i]);
      ItemsLaws(parts, v, w, i + 1);
      assert a[i..] == [a[i]] + a[i + 1..] && b[i..] == [b[i]] + b[i + 1..];
    } else {
      assert a[i..] == b[i..] ==> |a| == |b|;
    }
  }

  lemma {:induction false} OrderTransitive(s: Schema, u: Value, v: Value, w: Value)
    requires InOrder(s, u) && InOrder(s, v) && InOrder(s, w)
    requires Order(s, u, v) <= 0 && Order(s, v, w) <= 0
    ensures Order(s, u, w) <= 0
    decreases u, 1
  {
    hide HasType, Ordered, Canonical, OrderHeads, Parts;
    HeadsTransitive(s, u, v, w);
    ItemsInOrder(s, u, v);
    ItemsInOrder(s, v, w);
    ItemsInOrder(s, w, u);
    if OrderHeads(s, u, w) == 0 {
      ItemsTransitive(Parts(s, u), u, v, w, 0);
    }
  }

  lemma {:induction false} ItemsTransitive(parts: seq<Schema>, u: Value, v: Value, w: Value, i: nat)
    requires i <= |ItemsOf(u)| && i <= |ItemsOf(v)| && i <= |ItemsOf(w)|
    requires forall k: nat :: i <= k < |ItemsOf(u)| ==> InOrder(Part(parts, k), ItemsOf(u)[k])
    requires forall k: nat :: i <= k < |ItemsOf(v)| ==> InOrder(Part(parts, k), ItemsOf(v)[k])
    requires forall k: nat :: i <= k < |ItemsOf(w)| ==> InOrder(Part(parts, k), ItemsOf(w)[k])
    requires OrderItems(parts, u, v, i) <= 0 && OrderItems(parts, v, w, i) <= 0
    ensures OrderItems(parts, u, w, i) <= 0
    decreases u, 0, |ItemsOf(u)| - i
  {
    hide InOrder, Order;
    var a, b, c := ItemsOf(u), ItemsOf(v), ItemsOf(w);
    if i < |a| && i < |b| && i < |c| {
      var part := Part(parts, i);
      OrderTransitive(part, a[i], b[i], c[i]);
      OrderLaws(part, a[i], b[i]);
      OrderLaws(part, b[i], c[i]);
      OrderLaws(part, a[i], c[i]);
      if a[i] == c[i] && Order(part, a[i], b[i]) == 0 {
        ItemsTransitive(parts, u, v, w, i + 1);
      }
    }
  }
}

/** `compare` as it runs: over the flat codes of two values, on two streams at once. */
module CompareStreams {
  import opened Bytes
  import opened ByteCode
  import opened Schemas
  import opened Wire
  import opened CopySpec
  import opened Streams
  import opened Ordering
  import opened CompareSpec

  /** The streams have moved as r says, and the result is r's. */
  twostate predicate Compared(x: TypeInput, y: TypeInput, new r: Verdict, status: Status, sign: int)
    requires old(x.Valid()) && old(y.Valid())
    reads x, y
  {
    && x.Valid() && y.Valid() && x.depth == old(x.depth)
    && (status == match r case Threw => Status.Threw case NotCovered => NotModelled case _ => Fine)
    && (r.Differ? ==> sign == r.sign && sign != 0)
    && (r.Same? ==> sign == 0 && x.Rest() == r.a && y.Rest() == r.b)
  }

  /** `compare_integral_array`. */
  method CompareNumberArray(x: TypeInput, y: TypeInput, kind: Cell, n: nat) returns (status: Status, sign: int)
    requires x != y && x.Valid() && y.Valid() && Width(kind) > 0
    modifies x`pos, y`pos
    ensures Compared(x, y, CompareRun(kind, n, old(x.Rest()), old(y.Rest())), status, sign)
  {
    hide Number, Width;
    var i := 0;
    while i < n
      invariant 0 <= i <= n && x.Valid() && y.Valid()
      invariant CompareRun(kind, n - i, x.Rest(), y.Rest()) == CompareRun(kind, n, old(x.Rest()), old(y.Rest()))
    {
      CompareRunNext(kind, n - i, x.Rest(), y.Rest());
      var ok, a := x.Read(Width(kind));
      if !ok {
        return Status.Threw, 0;
      }
      var b;
      ok, b := y.Read(Width(kind));
      if !ok {
        return Status.Threw, 0;
      }
      sign := Sign(Number(kind, a), Number(kind, b));
      if sign != 0 {
        return Fine, sign;
      }
      i := i + 1;
    }
    CompareRunNext(kind, 0, x.Rest(), y.Rest());
    return Fine, 0;
  }

  lemma CompareRunNext(kind: Cell, n: nat, a: seq<Byte>, b: seq<Byte>)
    ensures CompareRun(kind, n, a, b) ==
              if n == 0 then Same(a, b)
              else if |a| < Width(kind) || |b| < Width(kind) then Verdict.Threw
              else
                var sign := Sign(Number(kind, a[..Width(kind)]), Number(kind, b[..Width(kind)]));
                if sign != 0 then Differ(sign) else CompareRun(kind, n - 1, a[Width(kind)..], b[Width(kind)..])
  {
  }

  /** Strings, by their bytes. */
  method CompareStringsAt(x: TypeInput, y: TypeInput) returns (status: Status, sign: int)
    requires x != y && x.Valid() && y.Valid()
    modifies x`pos, y`pos
    ensures Compared(x, y, CompareStrings(old(x.Rest()), old(y.Rest())), status, sign)
  {
    hide FromLittleEndian, OrderBytes;
    ghost var a, b := x.Rest(), y.Rest();
    var ok, size, first, second;
    ok, size := x.Read(4);
    if !ok {
      return Status.Threw, 0;
    }
    assert size == a[..4];
    var n := FromLittleEndian(size);
    ok, first := x.Read(n);
    if !ok {
      return Status.Threw, 0;
    }
    ok, size := y.Read(4);
    if !ok {
      return Status.Threw, 0;
    }
    assert size == b[..4];
    var m := FromLittleEndian(size);
    ok, second := y.Read(m);
    if !ok {
      return Status.Threw, 0;
    }
    assert first == a[4..4 + n] && second == b[4..4 + m];
    assert x.Rest() == a[4 + n..] && y.Rest() == b[4 + m..];
    sign := OrderBytes(first, second);
    status := Fine;
  }

  /** The dimensions of two images, in lockstep. */
  method CompareDimsAt(x: TypeInput, y: TypeInput, n: nat) returns (status: Status, sign: int, size: nat)
    requires x != y && x.Valid() && y.Valid()
    modifies x`pos, y`pos
    ensures Compared(x, y, CompareDims(n, old(x.Rest()), old(y.Rest())), status, sign)
    ensures CompareDims(n, old(x.Rest()), old(y.Rest())).Same? ==> size == Product(ReadDims(old(x.Rest()), n))
  {
    hide FromLittleEndian, CompareDims, ReadDims, Product;
    size := 1;
    ghost var a := x.Rest();
    var i := 0;
    SizeSoFar(size, a, n);
    while i < n
      invariant 0 <= i <= n && x.Valid() && y.Valid()
      invariant CompareDims(n - i, x.Rest(), y.Rest()) == CompareDims(n, old(x.Rest()), old(y.Rest()))
      invariant |x.Rest()| >= 4 * (n - i) && |a| >= 4 * n ==>
                  size * Product(ReadDims(x.Rest(), n - i)) == Product(ReadDims(a, n))
      invariant |x.Rest()| + 4 * i == |a|
    {
      var ok, b, c;
      ghost var here := x.Rest();
      DimsNext(n - i, here, y.Rest());
      ok, b := x.Read(4);
      if !ok {
        return Status.Threw, 0, 0;
      }
      ok, c := y.Read(4);
      if !ok {
        return Status.Threw, 0, 0;
      }
      assert b == here[..4];
      var p, q := FromLittleEndian(b), FromLittleEndian(c);
      if p != q {
        return Fine, if p < q then -1 else 1, 0;
      }
      if |here| >= 4 * (n - i) {
        SizeStep(size, here, n - i);
      }
      size := size * p;
      i := i + 1;
    }
    DimsNext(0, x.Rest(), y.Rest());
    NoDims(x.Rest());
    return Fine, 0, size;
  }

  lemma DimsNext(n: nat, a: seq<Byte>, b: seq<Byte>)
    ensures CompareDims(n, a, b) ==
              if n == 0 then Same(a, b)
              else if |a| < 4 || |b| < 4 then Verdict.Threw
              else if OneInteger(a) != OneInteger(b) then Differ(Sign(OneInteger(a), OneInteger(b)))
              else CompareDims(n - 1, a[4..], b[4..])
  {
  }

  lemma NoDims(a: seq<Byte>)
    ensures Product(ReadDims(a, 0)) == 1
  {
  }

  lemma SizeSoFar(size: nat, a: seq<Byte>, n: nat)
    requires size == 1
    ensures |a| >= 4 * n ==> size * Product(ReadDims(a, n)) == Product(ReadDims(a, n))
  {
  }

  lemma {:induction false} SizeStep(size: nat, a: seq<Byte>, n: nat)
    requires n > 0 && |a| >= 4 * n
    ensures size * Product(ReadDims(a, n)) == size * FromLittleEndian(a[..4]) * Product(ReadDims(a[4..], n - 1))
  {
    var dims := ReadDims(a, n);
    assert dims[0] == FromLittleEndian(a[..4]) && dims[1..] == ReadDims(a[4..], n - 1);
    ProductStep(size, dims);
  }

  // ---------------------------------------------------------------------------------------------
  // Codes without type information

  /** A code of the other byte order that matters. */
  predicate IsForeign(c: Cell) {
    IsAlt(c) && Width(c) == 0
  }

  /** What the first cell says about the schema. */
  lemma {:induction false} CodeKind(code: seq<Cell>, pos: nat)
    requires WellFormed(code, NoType, pos)
    ensures var s, c := Decode(code, NoType, pos), code[pos];
            && (s.Foreign? <==> IsForeign(c)) && (!s.Foreign? ==> KindCode(s) == c) && !s.Struct?
            && (s.Prim? <==> Width(c) > 0) && (s.Prim? ==> s.kind == c)
            && (s.Dyn? <==> c == CODE_DYNAMIC) && (s.Opt? <==> c == CODE_OPTIONAL) && (s.Str? <==> c == CODE_STRING)
            && (s.Arr? <==> c == CODE_ARRAY) && (s.Lst? <==> c == CODE_LIST) && (s.Assoc? <==> c == CODE_MAP)
            && (s.Mat? <==> c == CODE_MATRIX) && (s.Img? <==> c == CODE_IMAGE) && (s.Tup? <==> c == CODE_TUPLE)
            && (s.Obj? <==> c == CODE_OBJECT) && (s.Any? <==> c == CODE_ANY)
  {
    var instr := Fetch(code, NoType, pos).value;
    var kids := DecodeAll(code, NoType, pos, instr.children);
    assert Decode(code, NoType, pos) == Build(code, pos, instr, kids);
    FlipZero(code[pos]);
  }

  lemma FlipZero(c: Cell)
    ensures Flip(c) == 0 ==> c == 0
  {
  }

  const NULL_CODE: seq<Cell> := [CODE_NULL]
  const OBJECT_CODE: seq<Cell> := [CODE_MAP, 3, CODE_STRING, CODE_DYNAMIC]

  lemma {:induction false} NullCode()
    ensures WellFormed(NULL_CODE, NoType, 0) && Decode(NULL_CODE, NoType, 0) == Null
  {
    CheckFlatten(NULL_CODE, NoType, Null);
  }

  /** `compare`, called from outside or for an item. */
  method CompareValue(x: TypeInput, y: TypeInput, code: seq<Cell>, i: nat, other: seq<Cell>, j: nat)
    returns (status: Status, sign: int)
    requires x != y && x.Valid() && y.Valid() && WellFormed(code, NoType, i) && WellFormed(other, NoType, j)
    modifies x, y`pos
    ensures var s, t := Decode(code, NoType, i), Decode(other, NoType, j);
            Compared(x, y, Compare(s, t, old(x.Rest()), old(y.Rest()), old(x.depth)), status, sign)
    decreases MAX_RECURSION + 1 - x.depth, 1
  {
    hide Decode, WellFormed, CompareInside;
    x.depth := x.depth + 1;
    if x.depth > MAX_RECURSION {
      status, sign := Status.Threw, 0;
    } else {
      status, sign := CompareSecond(x, y, code, i, other, j);
    }
    x.depth := x.depth - 1;
  }

  /** The switch over the second code: dynamic and optional values are unwrapped. */
  method CompareSecond(x: TypeInput, y: TypeInput, code: seq<Cell>, i: nat, other: seq<Cell>, j: nat)
    returns (status: Status, sign: int)
    requires x != y && x.Valid() && y.Valid() && WellFormed(code, NoType, i) && WellFormed(other, NoType, j)
    requires x.depth <= MAX_RECURSION
    modifies x, y`pos
    ensures var s, t := Decode(code, NoType, i), Decode(other, NoType, j);
            Compared(x, y, CompareInside(s, t, old(x.Rest()), old(y.Rest()), old(x.depth)), status, sign)
    decreases MAX_RECURSION + 1 - x.depth, 6
  {
    hide Decode, WellFormed, Compare, CompareKinds, ReadByteCode;
    CodeKind(other, j);
    if other[j] == CODE_DYNAMIC {
      var ok, inner, raw := ReadDynamicCode(y);
      if !ok {
        return Status.Threw, 0;
      }
      status, sign := CompareValue(x, y, code, i, inner, 0);
    } else if other[j] == CODE_OPTIONAL {
      DecodeElement(other, NoType, j);
      NullCode();
      var ok, flag := y.Read(1);
      if !ok {
        return Status.Threw, 0;
      }
      if flag[0] != 0 {
        status, sign := CompareValue(x, y, code, i, other, j + 1);
      } else {
        status, sign := CompareValue(x, y, code, i, NULL_CODE, 0);
      }
    } else {
      status, sign := CompareFirst(x, y, code, i, other, j);
    }
  }

  /** The switch over the first code. */
  method CompareFirst(x: TypeInput, y: TypeInput, code: seq<Cell>, i: nat, other: seq<Cell>, j: nat)
    returns (status: Status, sign: int)
    requires x != y && x.Valid() && y.Valid() && WellFormed(code, NoType, i) && WellFormed(other, NoType, j)
    requires x.depth <= MAX_RECURSION && other[j] != CODE_DYNAMIC && other[j] != CODE_OPTIONAL
    modifies x, y`pos
    ensures var s, t := Decode(code, NoType, i), Decode(other, NoType, j);
            Compared(x, y, CompareKinds(s, t, old(x.Rest()), old(y.Rest()), old(x.depth)), status, sign)
    decreases MAX_RECURSION + 1 - x.depth, 5
  {
    hide Decode, WellFormed, CompareKinds, Fetch;
    var c, d := code[i], other[j];
    CodeKind(code, i);
    CodeKind(other, j);
    ghost var s, t := Decode(code, NoType, i), Decode(other, NoType, j);
    OtherKinds(s, t, x.Rest(), y.Rest(), x.depth);
    UncoveredKinds(s, t, x.Rest(), y.Rest(), x.depth);
    if KindCode(s) != KindCode(t) {
      DifferentKinds(s, t, x.Rest(), y.Rest(), x.depth);
    }
    if Width(c) > 0 {
      status, sign := CompareNumberAt(x, y, c, d, Decode(other, NoType, j));
    } else if c == CODE_DYNAMIC || c == CODE_OPTIONAL {
      status, sign := CompareUnwrapped(x, y, code, i, other, j);
    } else if IsForeign(c) || c == CODE_ANY || IsForeign(d) || (c == CODE_STRING && d != CODE_STRING)
              || (c == CODE_LIST && d == CODE_STRING) {
      status, sign := NotModelled, 0;
    } else if c != d {
      status, sign := Fine, Sign(c, d);
    } else if c == CODE_STRING {
      status, sign := CompareStringsAt(x, y);
    } else if c == CODE_ARRAY || c == CODE_LIST {
      status, sign := CompareListAt(x, y, code, i, other, j);
    } else if c == CODE_MAP {
      status, sign := CompareMapAt(x, y, code, i, other, j);
    } else if c == CODE_MATRIX {
      status, sign := CompareMatrixAt(x, y, code, i, other, j);
    } else if c == CODE_IMAGE {
      status, sign := CompareImageAt(x, y, code, i, other, j);
    } else if c == CODE_TUPLE {
      status, sign := CompareTupleAt(x, y, code, i, other, j);
    } else if c == CODE_OBJECT {
      CheckObjectCode(OBJECT_CODE, NoType);
      status, sign := CompareValue(x, y, OBJECT_CODE, 0, OBJECT_CODE, 0);
    } else {
      status, sign := Fine, 0;
    }
  }

  /** The pairs of kinds that are not covered. */
  lemma {:induction false} UncoveredKinds(s: Schema, t: Schema, a: seq<Byte>, b: seq<Byte>, depth: nat)
    requires depth <= MAX_RECURSION && !t.Dyn? && !t.Opt?
    ensures s.Foreign? || s.Any? || (s.Str? && !t.Str?) || (s.Lst? && t.Str?) ==>
              CompareKinds(s, t, a, b, depth) == NotCovered
    ensures !s.Prim? && !s.Dyn? && !s.Opt? && t.Foreign? ==> CompareKinds(s, t, a, b, depth) == NotCovered
  {
    hide CompareArray, CompareItems, Compare, CompareStrings, ComparePrim, CompareDims, ReadByteCode, OneInteger,
      Product;
  }

  /** The pairs of kinds that do not take a loop of their own. */
  lemma {:induction false} OtherKinds(s: Schema, t: Schema, a: seq<Byte>, b: seq<Byte>, depth: nat)
    requires depth <= MAX_RECURSION && !t.Dyn? && !t.Opt?
    ensures s.Prim? ==> CompareKinds(s, t, a, b, depth) == ComparePrim(s.kind, t, a, b)
    ensures s.Str? && t.Str? ==> CompareKinds(s, t, a, b, depth) == CompareStrings(a, b)
    ensures s.Obj? && t.Obj? ==>
              CompareKinds(s, t, a, b, depth) == Compare(Assoc(Str, Dyn), Assoc(Str, Dyn), a, b, depth)
    ensures (s.Null? || s.TypeDesc? || s.Struct?) && !t.Foreign? ==>
              CompareKinds(s, t, a, b, depth) == Decide(Sign(KindCode(s), KindCode(t)), a, b)
  {
    hide CompareKinds;
    if s.Prim? {
      PrimKinds(s, t, a, b, depth);
    } else if s.Str? && t.Str? {
      StringKinds(s, t, a, b, depth);
    } else if s.Obj? && t.Obj? {
      ObjectKinds(s, t, a, b, depth);
    } else if (s.Null? || s.TypeDesc? || s.Struct?) && !t.Foreign? {
      PlainKinds(s, t, a, b, depth);
    }
  }

  lemma {:induction false} PrimKinds(s: Schema, t: Schema, a: seq<Byte>, b: seq<Byte>, depth: nat)
    requires depth <= MAX_RECURSION && !t.Dyn? && !t.Opt? && s.Prim?
    ensures CompareKinds(s, t, a, b, depth) == ComparePrim(s.kind, t, a, b)
  {
    hide CompareArray, CompareItems, Compare, CompareStrings, ComparePrim, CompareDims, ReadByteCode, OneInteger,
      Product;
  }

  lemma {:induction false} StringKinds(s: Schema, t: Schema, a: seq<Byte>, b: seq<Byte>, depth: nat)
    requires depth <= MAX_RECURSION && s.Str? && t.Str?
    ensures CompareKinds(s, t, a, b, depth) == CompareStrings(a, b)
  {
    hide CompareArray, CompareItems, Compare, CompareStrings, ComparePrim, CompareDims, ReadByteCode, OneInteger,
      Product;
  }

  lemma {:induction false} ObjectKinds(s: Schema, t: Schema, a: seq<Byte>, b: seq<Byte>, depth: nat)
    requires depth <= MAX_RECURSION && s.Obj? && t.Obj?
    ensures CompareKinds(s, t, a, b, depth) == Compare(Assoc(Str, Dyn), Assoc(Str, Dyn), a, b, depth)
  {
    hide CompareArray, CompareItems, Compare, CompareStrings, ComparePrim, CompareDims, ReadByteCode, OneInteger,
      Product;
  }

  lemma {:induction false} PlainKinds(s: Schema, t: Schema, a: seq<Byte>, b: seq<Byte>, depth: nat)
    requires depth <= MAX_RECURSION && !t.Dyn? && !t.Opt?
    requires (s.Null? || s.TypeDesc? || s.Struct?) && !t.Foreign?
    ensures CompareKinds(s, t, a, b, depth) == Decide(Sign(KindCode(s), KindCode(t)), a, b)
  {
    hide CompareArray, CompareItems, Compare, CompareStrings, ComparePrim, CompareDims, ReadByteCode, OneInteger,
      Product;
  }

  lemma {:induction false} DifferentKinds(s: Schema, t: Schema, a: seq<Byte>, b: seq<Byte>, depth: nat)
    requires depth <= MAX_RECURSION && !t.Dyn? && !t.Opt? && KindCode(s) != KindCode(t)
    ensures (!s.Prim? && !s.Foreign? && !s.Any? && !s.Dyn? && !s.Opt? && !s.Str? && !t.Foreign? && !(s.Lst? && t.Str?)) ==>
              CompareKinds(s, t, a, b, depth) == Differ(Sign(KindCode(s), KindCode(t)))
  {
    hide CompareArray, CompareItems, Compare, CompareStrings, ComparePrim, CompareDims, ReadByteCode, OneInteger,
      Product;
  }

  /** A number against whatever the second code is. */
  method CompareNumberAt(x: TypeInput, y: TypeInput, c: Cell, d: Cell, ghost t: Schema)
    returns (status: Status, sign: int)
    requires x != y && x.Valid() && y.Valid() && Width(c) > 0
    requires (t.Foreign? <==> IsForeign(d)) && (t.Prim? <==> Width(d) > 0) && (t.Prim? ==> t.kind == d)
    modifies x`pos, y`pos
    ensures Compared(x, y, ComparePrim(c, t, old(x.Rest()), old(y.Rest())), status, sign)
  {
    hide Number, Width;
    if IsFloat(c) || IsForeign(d) {
      return NotModelled, 0;
    }
    var ok, a, b;
    ok, a := x.Read(Width(c));
    if !ok {
      return Status.Threw, 0;
    }
    if Width(d) == 0 {
      return Fine, -1;
    }
    if IsFloat(d) {
      return NotModelled, 0;
    }
    ok, b := y.Read(Width(d));
    if !ok {
      return Status.Threw, 0;
    }
    return Fine, CompareNumbers(c, Number(c, a), d, Number(d, b));
  }

  /** Dynamic and optional first values are unwrapped. */
  method CompareUnwrapped(x: TypeInput, y: TypeInput, code: seq<Cell>, i: nat, other: seq<Cell>, j: nat)
    returns (status: Status, sign: int)
    requires x != y && x.Valid() && y.Valid() && WellFormed(code, NoType, i) && WellFormed(other, NoType, j)
    requires x.depth <= MAX_RECURSION && (code[i] == CODE_DYNAMIC || code[i] == CODE_OPTIONAL)
    modifies x, y`pos
    ensures var s, t := Decode(code, NoType, i), Decode(other, NoType, j);
            Compared(x, y, CompareKinds(s, t, old(x.Rest()), old(y.Rest()), old(x.depth)), status, sign)
    decreases MAX_RECURSION + 1 - x.depth, 4
  {
    hide Decode, WellFormed, Compare, ReadByteCode;
    CodeKind(code, i);
    if code[i] == CODE_DYNAMIC {
      var ok, inner, raw := ReadDynamicCode(x);
      if !ok {
        return Status.Threw, 0;
      }
      status, sign := CompareValue(x, y, inner, 0, other, j);
    } else {
      DecodeElement(code, NoType, i);
      NullCode();
      var ok, flag := x.Read(1);
      if !ok {
        return Status.Threw, 0;
      }
      if flag[0] != 0 {
        status, sign := CompareValue(x, y, code, i + 1, other, j);
      } else {
        status, sign := CompareValue(x, y, NULL_CODE, 0, other, j);
      }
    }
  }

  /** The items of both streams, until two differ; the codes start over when there are more items. */
  method CompareEach(
      x: TypeInput, y: TypeInput, code: seq<Cell>, at: seq<nat>, other: seq<Cell>, otherAt: seq<nat>, n: nat,
      ghost ps: seq<Schema>, ghost pt: seq<Schema>)
    returns (status: Status, sign: int)
    requires x != y && x.Valid() && y.Valid() && x.depth <= MAX_RECURSION
    requires |at| == |ps| == |otherAt| == |pt| && (n > 0 ==> |at| > 0)
    requires forall k: nat :: k < |at| ==> WellFormed(code, NoType, at[k]) && Decode(code, NoType, at[k]) == ps[k]
    requires forall k: nat :: k < |at| ==>
               WellFormed(other, NoType, otherAt[k]) && Decode(other, NoType, otherAt[k]) == pt[k]
    modifies x, y`pos
    ensures Compared(x, y, CompareItems(ps, pt, 0, n, old(x.Rest()), old(y.Rest()), old(x.depth)), status, sign)
    decreases MAX_RECURSION + 1 - x.depth, 2
  {
    hide Decode, WellFormed, Compare, CompareItems;
    var depth := x.depth;
    var i := 0;
    while i < n
      invariant 0 <= i <= n && x.Valid() && y.Valid() && x.depth == depth
      invariant CompareItems(ps, pt, i, n, x.Rest(), y.Rest(), depth)
                == CompareItems(ps, pt, 0, n, old(x.Rest()), old(y.Rest()), depth)
    {
      CompareItemsStep(ps, pt, i, n, x.Rest(), y.Rest(), depth);
      var k := if |at| == 1 then 0 else if i < |at| then i else i % |at|;
      assert ps[k] == Part(ps, i) && pt[k] == Part(pt, i);
      status, sign := CompareValue(x, y, code, at[k], other, otherAt[k]);
      if !status.Fine? || sign != 0 {
        return;
      }
      i := i + 1;
    }
    CompareItemsStep(ps, pt, i, n, x.Rest(), y.Rest(), depth);
    status, sign := Fine, 0;
  }

  lemma CompareItemsStep(ps: seq<Schema>, pt: seq<Schema>, i: nat, n: nat, a: seq<Byte>, b: seq<Byte>, depth: nat)
    requires i <= n
    ensures CompareItems(ps, pt, i, n, a, b, depth) ==
              if i == n then Same(a, b)
              else
                var first := Compare(Part(ps, i), Part(pt, i), a, b, depth);
                if first.Same? then CompareItems(ps, pt, i + 1, n, first.a, first.b, depth) else first
  {
    hide Compare;
  }

  /** `compare_array`. */
  method CompareArrayAt(
      x: TypeInput, y: TypeInput, n: nat, m: nat, code: seq<Cell>, i: nat, other: seq<Cell>, j: nat)
    returns (status: Status, sign: int)
    requires x != y && x.Valid() && y.Valid() && WellFormed(code, NoType, i) && WellFormed(other, NoType, j)
    requires x.depth <= MAX_RECURSION
    modifies x, y`pos
    ensures var s, t := Decode(code, NoType, i), Decode(other, NoType, j);
            Compared(x, y, CompareArray(s, t, n, m, old(x.Rest()), old(y.Rest()), old(x.depth)), status, sign)
    decreases MAX_RECURSION + 1 - x.depth, 3
  {
    hide Decode, WellFormed, Compare, CompareItems, CompareRun;
    ghost var s, t := Decode(code, NoType, i), Decode(other, NoType, j);
    CodeKind(code, i);
    CodeKind(other, j);
    if n != m {
      return Fine, Sign(n, m);
    }
    if Width(code[i]) > 0 && code[i] == other[j] {
      assert s == t;
      if IsFloat(code[i]) {
        return NotModelled, 0;
      }
      status, sign := CompareNumberArray(x, y, code[i], n);
    } else {
      status, sign := CompareEach(x, y, code, [i], other, [j], n, [s], [t]);
    }
  }

  /** Arrays and lists. */
  method CompareListAt(x: TypeInput, y: TypeInput, code: seq<Cell>, i: nat, other: seq<Cell>, j: nat)
    returns (status: Status, sign: int)
    requires x != y && x.Valid() && y.Valid() && WellFormed(code, NoType, i) && WellFormed(other, NoType, j)
    requires x.depth <= MAX_RECURSION && code[i] == other[j] && (code[i] == CODE_ARRAY || code[i] == CODE_LIST)
    modifies x, y`pos
    ensures var s, t := Decode(code, NoType, i), Decode(other, NoType, j);
            Compared(x, y, CompareKinds(s, t, old(x.Rest()), old(y.Rest()), old(x.depth)), status, sign)
    decreases MAX_RECURSION + 1 - x.depth, 4
  {
    hide Decode, WellFormed, CompareArray, FromLittleEndian;
    DecodeElement(code, NoType, i);
    DecodeElement(other, NoType, j);
    if code[i] == CODE_ARRAY {
      status, sign := CompareArrayAt(x, y, code[i + 1], other[j + 1], code, i + 2, other, j + 2);
    } else {
      var ok, a, b;
      ok, a := x.Read(4);
      if !ok {
        return Status.Threw, 0;
      }
      ok, b := y.Read(4);
      if !ok {
        return Status.Threw, 0;
      }
      status, sign := CompareArrayAt(x, y, FromLittleEndian(a), FromLittleEndian(b), code, i + 1, other, j + 1);
    }
  }

  method CompareMapAt(x: TypeInput, y: TypeInput, code: seq<Cell>, i: nat, other: seq<Cell>, j: nat)
    returns (status: Status, sign: int)
    requires x != y && x.Valid() && y.Valid() && WellFormed(code, NoType, i) && WellFormed(other, NoType, j)
    requires x.depth <= MAX_RECURSION && code[i] == other[j] == CODE_MAP
    modifies x, y`pos
    ensures var s, t := Decode(code, NoType, i), Decode(other, NoType, j);
            Compared(x, y, CompareKinds(s, t, old(x.Rest()), old(y.Rest()), old(x.depth)), status, sign)
    decreases MAX_RECURSION + 1 - x.depth, 4
  {
    hide Decode, WellFormed, CompareItems, FromLittleEndian;
    DecodeMap(code, NoType, i);
    DecodeMap(other, NoType, j);
    var ok, a, b;
    ok, a := x.Read(4);
    if !ok {
      return Status.Threw, 0;
    }
    ok, b := y.Read(4);
    if !ok {
      return Status.Threw, 0;
    }
    var n, m := FromLittleEndian(a), FromLittleEndian(b);
    var at, otherAt := [i + 2, i + code[i + 1]], [j + 2, j + other[j + 1]];
    status, sign := CompareEach(x, y, code, at, other, otherAt, 2 * (if n < m then n else m),
                                [Decode(code, NoType, at[0]), Decode(code, NoType, at[1])],
                                [Decode(other, NoType, otherAt[0]), Decode(other, NoType, otherAt[1])]);
    if status.Fine? && sign == 0 {
      sign := Sign(n, m);
    }
  }

  method CompareMatrixAt(x: TypeInput, y: TypeInput, code: seq<Cell>, i: nat, other: seq<Cell>, j: nat)
    returns (status: Status, sign: int)
    requires x != y && x.Valid() && y.Valid() && WellFormed(code, NoType, i) && WellFormed(other, NoType, j)
    requires x.depth <= MAX_RECURSION && code[i] == other[j] == CODE_MATRIX
    modifies x, y`pos
    ensures var s, t := Decode(code, NoType, i), Decode(other, NoType, j);
            Compared(x, y, CompareKinds(s, t, old(x.Rest()), old(y.Rest()), old(x.depth)), status, sign)
    decreases MAX_RECURSION + 1 - x.depth, 4
  {
    hide Decode, WellFormed, CompareArray, OrderSizes, Product;
    DecodeElement(code, NoType, i);
    DecodeElement(other, NoType, j);
    var dims, otherDims := code[i + 2..i + 2 + code[i + 1]], other[j + 2..j + 2 + other[j + 1]];
    if |dims| != |otherDims| {
      return Fine, Sign(|dims|, |otherDims|);
    }
    var first, size := CompareSizes(dims, otherDims);
    if first != 0 {
      return Fine, first;
    }
    status, sign := CompareArrayAt(x, y, size, size, code, i + 2 + |dims|, other, j + 2 + |dims|);
  }

  /** The loop over the dimensions of two matrices. */
  method CompareSizes(a: seq<nat>, b: seq<nat>) returns (sign: int, size: nat)
    requires |a| == |b|
    ensures sign == OrderSizes(a, b) && (sign == 0 ==> size == Product(a))
  {
    size := 1;
    var k := 0;
    while k < |a|
      invariant 0 <= k <= |a| && OrderSizes(a[k..], b[k..]) == OrderSizes(a, b)
      invariant size * Product(a[k..]) == Product(a)
    {
      assert a[k..][1..] == a[k + 1..] && b[k..][1..] == b[k + 1..];
      if a[k] != b[k] {
        return if a[k] < b[k] then -1 else 1, size;
      }
      ProductStep(size, a[k..]);
      size := size * a[k];
      k := k + 1;
    }
    sign := 0;
  }

  method CompareImageAt(x: TypeInput, y: TypeInput, code: seq<Cell>, i: nat, other: seq<Cell>, j: nat)
    returns (status: Status, sign: int)
    requires x != y && x.Valid() && y.Valid() && WellFormed(code, NoType, i) && WellFormed(other, NoType, j)
    requires x.depth <= MAX_RECURSION && code[i] == other[j] == CODE_IMAGE
    modifies x, y`pos
    ensures var s, t := Decode(code, NoType, i), Decode(other, NoType, j);
            Compared(x, y, CompareKinds(s, t, old(x.Rest()), old(y.Rest()), old(x.depth)), status, sign)
    decreases MAX_RECURSION + 1 - x.depth, 4
  {
    hide Decode, WellFormed, CompareArray, CompareDims, Product, ReadDims;
    DecodeElement(code, NoType, i);
    DecodeElement(other, NoType, j);
    if code[i + 1] != other[j + 1] {
      return Fine, Sign(code[i + 1], other[j + 1]);
    }
    var size;
    status, sign, size := CompareDimsAt(x, y, code[i + 1]);
    if status.Fine? && sign == 0 {
      status, sign := CompareArrayAt(x, y, size, size, code, i + 2, other, j + 2);
    }
  }

  method CompareTupleAt(x: TypeInput, y: TypeInput, code: seq<Cell>, i: nat, other: seq<Cell>, j: nat)
    returns (status: Status, sign: int)
    requires x != y && x.Valid() && y.Valid() && WellFormed(code, NoType, i) && WellFormed(other, NoType, j)
    requires x.depth <= MAX_RECURSION && code[i] == other[j] == CODE_TUPLE
    modifies x, y`pos
    ensures var s, t := Decode(code, NoType, i), Decode(other, NoType, j);
            Compared(x, y, CompareKinds(s, t, old(x.Rest()), old(y.Rest()), old(x.depth)), status, sign)
    decreases MAX_RECURSION + 1 - x.depth, 4
  {
    hide Decode, WellFormed, CompareItems, Fetch;
    DecodeTupleCode(code, NoType, i);
    DecodeTupleCode(other, NoType, j);
    var at, otherAt := TupleChildren(code, i), TupleChildren(other, j);
    if |at| != |otherAt| {
      return Fine, Sign(|at|, |otherAt|);
    }
    status, sign := CompareEach(x, y, code, at, other, otherAt, |at|,
                                DecodeAll(code, NoType, i, at), DecodeAll(other, NoType, j, otherAt));
  }
}

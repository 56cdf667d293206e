/**
 What `compare` does with two streams, by the schemas of their codes, and what `calc_hash` feeds to
 the hash. Floats, classes and codes of the other byte order are outside this model.
 */
module CompareSpec {
  import opened Bytes
  import opened ByteCode
  import opened Schemas
  import opened Wire
  import opened CopySpec
  import opened Ordering

  /** Differ is a result other than 0; Same leaves what is left of both streams. */
  datatype Verdict = Differ(sign: int) | Same(a: seq<Byte>, b: seq<Byte>) | Threw | NotCovered

  /** A value cast to `int64_t`. */
  function Wrap64(n: int): int {
    var m := n % 0x1_0000_0000_0000_0000;
    if m >= 0x8000_0000_0000_0000 then m - 0x1_0000_0000_0000_0000 else m
  }

  /** `compare_integral`: two unsigned numbers compare as they are, others as `int64_t`. */
  function CompareNumbers(s: Cell, x: int, t: Cell, y: int): int {
    if !IsSigned(s) && !IsSigned(t) then Sign(x, y) else Sign(Wrap64(x), Wrap64(y))
  }

  /** The first cell of the code of s. */
  function KindCode(s: Schema): Cell {
    match s
    case Null => CODE_NULL
    case Str => CODE_STRING
    case Dyn => CODE_DYNAMIC
    case Obj => CODE_OBJECT
    case Any => CODE_ANY
    case TypeDesc => CODE_TYPE_CODE
    case Prim(kind) => kind
    case Arr(_, _) => CODE_ARRAY
    case Lst(_) => CODE_LIST
    case Opt(_) => CODE_OPTIONAL
    case Assoc(_, _) => CODE_MAP
    case Mat(_, _) => CODE_MATRIX
    case Img(_, _) => CODE_IMAGE
    case Tup(_) => CODE_TUPLE
    case Struct(_, _, _, _) => CODE_STRUCT
    case Foreign => CODE_ANY
  }

  function OneInteger(b: seq<Byte>): nat
    requires |b| >= 4
  {
    FromLittleEndian(b[..4])
  }

  function Decide(sign: int, a: seq<Byte>, b: seq<Byte>): Verdict {
    if sign != 0 then Differ(sign) else Same(a, b)
  }

  /** `compare_integral_array`. */
  function CompareRun(kind: Cell, n: nat, a: seq<Byte>, b: seq<Byte>): Verdict {
    var width := Width(kind);
    if n == 0 then Same(a, b)
    else if |a| < width || |b| < width then Threw
    else
      var sign := Sign(Number(kind, a[..width]), Number(kind, b[..width]));
      if sign != 0 then Differ(sign) else CompareRun(kind, n - 1, a[width..], b[width..])
  }

  /** The dimensions of two images, in lockstep. */
  function CompareDims(n: nat, a: seq<Byte>, b: seq<Byte>): (r: Verdict)
    ensures r.Same? ==> |a| >= 4 * n && |b| >= 4 * n
  {
    if n == 0 then Same(a, b)
    else if |a| < 4 || |b| < 4 then Threw
    else if OneInteger(a) != OneInteger(b) then Differ(Sign(OneInteger(a), OneInteger(b)))
    else CompareDims(n - 1, a[4..], b[4..])
  }

  function CompareStrings(a: seq<Byte>, b: seq<Byte>): Verdict {
    if |a| < 4 || |a| < 4 + OneInteger(a) || |b| < 4 || |b| < 4 + OneInteger(b) then Threw
    else
      var i, j := 4 + OneInteger(a), 4 + OneInteger(b);
      Decide(OrderBytes(a[4..i], b[4..j]), a[i..], b[j..])
  }

  /** `compare`, called at the given recursion depth of the first stream. */
  function Compare(s: Schema, t: Schema, a: seq<Byte>, b: seq<Byte>, depth: nat): Verdict
    decreases if depth <= MAX_RECURSION then MAX_RECURSION + 1 - depth else 0, 1, 0
  {
    if depth + 1 > MAX_RECURSION then Threw else CompareInside(s, t, a, b, depth + 1)
  }

  function CompareInside(s: Schema, t: Schema, a: seq<Byte>, b: seq<Byte>, depth: nat): Verdict
    requires depth <= MAX_RECURSION
    decreases MAX_RECURSION + 1 - depth, 4, 0
  {
    match t
    case Dyn =>
      var r := ReadByteCode(b);
      if !r.Done? then Threw else Compare(s, Decode(r.value.0, NoType, 0), a, b[|r.value.1|..], depth)
    case Opt(elem) =>
      if |b| < 1 then Threw else Compare(s, if b[0] != 0 then elem else Null, a, b[1..], depth)
    case _ => CompareKinds(s, t, a, b, depth)
  }

  /** Once the second code is neither dynamic nor optional. */
  function CompareKinds(s: Schema, t: Schema, a: seq<Byte>, b: seq<Byte>, depth: nat): Verdict
    requires depth <= MAX_RECURSION
    decreases MAX_RECURSION + 1 - depth, 3, 0
  {
    match (s, t)
    case (Foreign, _) => NotCovered
    case (Any, _) => NotCovered
    case (Prim(kind), _) => ComparePrim(kind, t, a, b)
    case (Str, Str) => CompareStrings(a, b)
    case (Str, _) => NotCovered
    case (Lst(_), Str) => NotCovered
    case (Dyn, _) =>
      var r := ReadByteCode(a);
      if !r.Done? then Threw else Compare(Decode(r.value.0, NoType, 0), t, a[|r.value.1|..], b, depth)
    case (Opt(elem), _) =>
      if |a| < 1 then Threw else Compare(if a[0] != 0 then elem else Null, t, a[1..], b, depth)
    case (_, Foreign) => NotCovered
    case (Arr(n, elem), Arr(m, elem')) => CompareArray(elem, elem', n, m, a, b, depth)
    case (Lst(elem), Lst(elem')) =>
      if |a| < 4 || |b| < 4 then Threw
      else CompareArray(elem, elem', OneInteger(a), OneInteger(b), a[4..], b[4..], depth)
    case (Assoc(key, value), Assoc(key', value')) =>
      if |a| < 4 || |b| < 4 then Threw
      else
        var n, m := OneInteger(a), OneInteger(b);
        var r := CompareItems([key, value], [key', value'], 0, 2 * (if n < m then n else m), a[4..], b[4..], depth);
        if r.Same? then Decide(Sign(n, m), r.a, r.b) else r
    case (Mat(dims, elem), Mat(dims', elem')) =>
      if |dims| != |dims'| then Differ(Sign(|dims|, |dims'|))
      else if OrderSizes(dims, dims') != 0 then Differ(OrderSizes(dims, dims'))
      else CompareArray(elem, elem', Product(dims), Product(dims), a, b, depth)
    case (Img(n, elem), Img(m, elem')) =>
      if n != m then Differ(Sign(n, m))
      else
        var r := CompareDims(n, a, b);
        if !r.Same? then r
        else CompareArray(elem, elem', Product(ReadDims(a, n)), Product(ReadDims(a, n)), r.a, r.b, depth)
    case (Tup(elems), Tup(elems')) =>
      if |elems| != |elems'| then Differ(Sign(|elems|, |elems'|))
      else CompareItems(elems, elems', 0, |elems|, a, b, depth)
    case (Obj, Obj) => Compare(Assoc(Str, Dyn), Assoc(Str, Dyn), a, b, depth)
    case (_, _) => Decide(Sign(KindCode(s), KindCode(t)), a, b)
  }

  function ComparePrim(kind: Cell, t: Schema, a: seq<Byte>, b: seq<Byte>): Verdict {
    if IsFloat(kind) || t.Foreign? then NotCovered
    else if |a| < Width(kind) then Threw
    else if !t.Prim? then Differ(-1)
    else if IsFloat(t.kind) then NotCovered
    else if |b| < Width(t.kind) then Threw
    else
      var n, m := Width(kind), Width(t.kind);
      Decide(CompareNumbers(kind, Number(kind, a[..n]), t.kind, Number(t.kind, b[..m])), a[n..], b[m..])
  }

  /** `compare_array`: numbers of one kind are compared in a loop of their own. */
  function CompareArray(s: Schema, t: Schema, n: nat, m: nat, a: seq<Byte>, b: seq<Byte>, depth: nat): Verdict
    requires depth <= MAX_RECURSION
    decreases MAX_RECURSION + 1 - depth, 2, 0
  {
    if n != m then Differ(Sign(n, m))
    else if s.Prim? && s == t then if IsFloat(s.kind) then NotCovered else CompareRun(s.kind, n, a, b)
    else CompareItems([s], [t], 0, n, a, b, depth)
  }

  /** The items i to n of both streams, until two differ. */
  function CompareItems(
      ps: seq<Schema>, pt: seq<Schema>, i: nat, n: nat, a: seq<Byte>, b: seq<Byte>, depth: nat): Verdict
    requires i <= n
    decreases if depth <= MAX_RECURSION then MAX_RECURSION + 1 - depth else 0, 1, 1 + n - i
  {
    if i == n then Same(a, b)
    else
      var first := Compare(Part(ps, i), Part(pt, i), a, b, depth);
      if first.Same? then CompareItems(ps, pt, i + 1, n, first.a, first.b, depth) else first
  }
}

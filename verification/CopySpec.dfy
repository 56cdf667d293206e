/**
 What `copy` and `skip` do with the bytes of a stream, by schema: how many they take, and what comes
 out on the other side.
 */
module CopySpec {
  import opened Bytes
  import opened ByteCode
  import opened Schemas
  import opened Wire

  /** Failed is an exception; Outside is a type whose handling this model does not contain. */
  datatype Outcome<+T> = Done(value: T) | Failed | Outside

  datatype Copied = Copied(size: nat, out: seq<Byte>)

  /**
   What the first bytes of a value say: how many there are and what is written for them, and which
   items follow. Items of one kind may be copied in bulk; an object is a map one level further down.
   */
  datatype Head = Head(size: nat, out: seq<Byte>, parts: seq<Schema>, count: nat, bulk: bool, extra: nat)

  function ReadCell(data: seq<Byte>): Cell
    requires |data| >= 2
  {
    FromLittleEndian(data[..2])
  }

  function ReadCells(data: seq<Byte>, n: nat): (code: seq<Cell>)
    requires |data| >= 2 * n
    ensures |code| == n
  {
    if n == 0 then [] else [ReadCell(data)] + ReadCells(data[2..], n - 1)
  }

  function ReadDims(data: seq<Byte>, n: nat): (dims: seq<nat>)
    requires |data| >= 4 * n
    ensures |dims| == n
  {
    if n == 0 then [] else [FromLittleEndian(data[..4])] + ReadDims(data[4..], n - 1)
  }

  /** `read_byte_code`: the code and what `write_byte_code` writes for it. */
  function ReadByteCode(data: seq<Byte>): (r: Outcome<(seq<Cell>, seq<Byte>)>)
    ensures r.Done? ==> |r.value.1| == 2 + 2 * |r.value.0| <= |data|
    ensures r.Done? ==> WellFormed(r.value.0, NoType, 0)
  {
    if |data| < 2 then Failed
    else
      var size := if ReadCell(data) > 0xFF then Flip(ReadCell(data)) else ReadCell(data);
      if size == 0 || size > MAX_BYTE_CODE_SIZE || |data| < 2 + 2 * size then Failed
      else
        var code := ReadCells(data[2..], size);
        ValidateDecides(code, NoType, 0, 0);
        if Validate(code, NoType, 0, 0).Err? then Failed
        else Done((code, LittleEndian(size, 2) + data[2..2 + 2 * size]))
  }

  function ReadHead(s: Schema, data: seq<Byte>): (r: Outcome<Head>)
    ensures r.Done? ==> r.value.size <= |data| && |r.value.out| == r.value.size
    ensures r.Done? && r.value.bulk ==> |r.value.parts| == 1
  {
    match s
    case Null => Done(Head(0, [], [], 0, false, 0))
    case Prim(kind) =>
      if |data| < Width(kind) then Failed
      else Done(Head(Width(kind), data[..Width(kind)], [], 0, false, 0))
    case Str =>
      if |data| < 4 || |data| < 4 + FromLittleEndian(data[..4]) then Failed
      else
        var size := 4 + FromLittleEndian(data[..4]);
        Done(Head(size, data[..size], [], 0, false, 0))
    case Arr(size, elem) => Done(Head(0, [], [elem], size, true, 0))
    case Lst(elem) =>
      if |data| < 4 then Failed
      else Done(Head(4, data[..4], [elem], FromLittleEndian(data[..4]), true, 0))
    case Assoc(key, value) =>
      if |data| < 4 then Failed
      else Done(Head(4, data[..4], [key, value], 2 * FromLittleEndian(data[..4]), false, 0))
    case Obj =>
      if |data| < 4 then Failed
      else Done(Head(4, data[..4], [Str, Dyn], 2 * FromLittleEndian(data[..4]), false, 1))
    case Mat(dims, elem) =>
      if dims == [] then Failed
      else Done(Head(0, [], [elem], Product(dims), true, 0))
    case Img(rank, elem) =>
      if rank == 0 || |data| < 4 * rank then Failed
      else Done(Head(4 * rank, data[..4 * rank], [elem], Product(ReadDims(data, rank)), true, 0))
    case Tup(elems) => Done(Head(0, [], elems, |elems|, false, 0))
    case Struct(_, total, _, ext) =>
      if |data| < total then Failed
      else Done(Head(total, data[..total], ext, |ext|, false, 0))
    case Opt(elem) =>
      if |data| < 1 then Failed
      else
        // the flag is read as a bool and written as one
        var flag := if data[0] == 0 then 0 else 1;
        Done(Head(1, [flag], [elem], flag, false, 0))
    case Dyn =>
      var r := ReadByteCode(data);
      if !r.Done? then Failed
      else Done(Head(|r.value.1|, r.value.1, [Decode(r.value.0, NoType, 0)], 1, false, 0))
    case _ => Outside
  }

  /** `copy`, called at the given recursion depth on a stream with these bytes left. */
  function Copy(s: Schema, data: seq<Byte>, depth: nat): (r: Outcome<Copied>)
    ensures r.Done? ==> r.value.size <= |data| && |r.value.out| == r.value.size
    decreases if depth <= MAX_RECURSION then MAX_RECURSION + 1 - depth else 0, 1, 0
  {
    if depth + 1 > MAX_RECURSION then Failed else CopyInside(s, data, depth + 1)
  }

  /** `copy` once the recursion depth has been counted. */
  function CopyInside(s: Schema, data: seq<Byte>, depth: nat): (r: Outcome<Copied>)
    requires depth <= MAX_RECURSION
    ensures r.Done? ==> r.value.size <= |data| && |r.value.out| == r.value.size
    decreases MAX_RECURSION + 1 - depth, 3, 0
  {
    match ReadHead(s, data)
    case Done(head) => CopyBody(head, data[head.size..], depth + head.extra)
    case Failed => Failed
    case Outside => Outside
  }

  /** What follows a head: one block of bytes if the items have a fixed size, else item by item. */
  function CopyBody(h: Head, data: seq<Byte>, depth: nat): (r: Outcome<Copied>)
    requires h.bulk ==> |h.parts| == 1
    requires |h.out| == h.size
    ensures r.Done? ==> h.size <= r.value.size <= h.size + |data| && |r.value.out| == r.value.size
    decreases if depth <= MAX_RECURSION then MAX_RECURSION + 1 - depth else 0, 2, 0
  {
    if depth > MAX_RECURSION then Failed
    else
      Chain(Copied(h.size, h.out),
            if h.bulk then CopyElements(h.parts[0], h.count, data, depth)
            else CopyItems(h.parts, 0, h.count, data, depth))
  }

  /** Items of one kind: one block of bytes if they have a fixed size, else one by one. */
  function CopyElements(elem: Schema, count: nat, data: seq<Byte>, depth: nat): (r: Outcome<Copied>)
    ensures r.Done? ==> r.value.size <= |data| && |r.value.out| == r.value.size
    decreases if depth <= MAX_RECURSION then MAX_RECURSION + 1 - depth else 0, 1, 2 + count
  {
    if FixedSize(elem) > 0 then CopyBlock(count * FixedSize(elem), data)
    else CopyItems([elem], 0, count, data, depth)
  }

  function Chain(c: Copied, r: Outcome<Copied>): Outcome<Copied> {
    if r.Done? then Done(Copied(c.size + r.value.size, c.out + r.value.out)) else r
  }

  /** `copy_bytes`. */
  function CopyBlock(size: nat, data: seq<Byte>): (r: Outcome<Copied>)
    ensures r.Done? ==> r.value.size <= |data| && |r.value.out| == r.value.size
  {
    if size <= |data| then Done(Copied(size, data[..size])) else Failed
  }

  /** The items i to n, one after the other. */
  function CopyItems(parts: seq<Schema>, i: nat, n: nat, data: seq<Byte>, depth: nat): (r: Outcome<Copied>)
    requires i <= n
    ensures r.Done? ==> r.value.size <= |data| && |r.value.out| == r.value.size
    decreases if depth <= MAX_RECURSION then MAX_RECURSION + 1 - depth else 0, 1, 1 + n - i
  {
    if i == n then Done(Copied(0, []))
    else
      var first := Copy(Part(parts, i), data, depth);
      if !first.Done? then first
      else Chain(first.value, CopyItems(parts, i + 1, n, data[first.value.size..], depth))
  }
}

/**
 `copy` and `skip` as they run: an interpreter over the flat code that advances an input stream and
 appends to an output stream. Every method is tied to the function of `CopySpec` it carries out.
 */
module Streams {
  import opened Bytes
  import opened ByteCode
  import opened Schemas
  import opened Wire
  import opened CopySpec

  const BUFFER_SIZE: nat := 16384

  /** Whether a call returned, threw, or met a type whose handling is not modelled. */
  datatype Status = Fine | Threw | NotModelled

  class TypeInput {
    const data: seq<Byte>
    var pos: nat
    var depth: nat

    constructor (data: seq<Byte>)
      ensures this.data == data && pos == 0 && depth == 0
    {
      this.data := data;
      pos, depth := 0, 0;
    }

    predicate Valid()
      reads this
    {
      pos <= |data|
    }

    function Rest(): seq<Byte>
      requires Valid()
      reads this
    {
      data[pos..]
    }

    method Read(n: nat) returns (ok: bool, bytes: seq<Byte>)
      requires Valid()
      modifies this`pos
      ensures Valid() && ok == (n <= |old(Rest())|)
      ensures ok ==> bytes == old(Rest())[..n] && Rest() == old(Rest())[n..]
      ensures pos == if ok then old(pos) + n else old(pos)
    {
      ok := pos + n <= |data|;
      bytes := [];
      if ok {
        bytes := data[pos..pos + n];
        pos := pos + n;
      }
    }
  }

  class TypeOutput {
    var data: seq<Byte>

    constructor ()
      ensures data == []
    {
      data := [];
    }

    method Write(bytes: seq<Byte>)
      modifies this
      ensures data == old(data) + bytes
    {
      data := data + bytes;
    }
  }

  /** The streams have moved as r says. */
  twostate predicate Moved(input: TypeInput, out: TypeOutput?, new r: Outcome<Copied>, status: Status)
    requires old(input.Valid())
    reads input, out
  {
    && input.Valid()
    && input.depth == old(input.depth)
    && (status == match r case Done(_) => Fine case Failed => Threw case Outside => NotModelled)
    && (r.Done? ==>
          && r.value.size <= |old(input.Rest())|
          && input.pos == old(input.pos) + r.value.size
          && (out != null ==> out.data == old(out.data) + r.value.out))
  }

  /** `copy_bytes`, one buffer at a time. */
  method CopyBytes(input: TypeInput, out: TypeOutput?, count: nat) returns (status: Status)
    requires input.Valid()
    modifies input`pos, out
    ensures Moved(input, out, CopyBlock(count, old(input.Rest())), status)
  {
    var left := count;
    while left > 0
      invariant 0 <= left <= count && input.Valid() && input.depth == old(input.depth)
      invariant input.pos == old(input.pos) + (count - left)
      invariant out != null ==> out.data == old(out.data) + old(input.Rest())[..count - left]
    {
      var n := if left > BUFFER_SIZE then BUFFER_SIZE else left;
      var ok, bytes := input.Read(n);
      if !ok {
        return Threw;
      }
      if out != null {
        out.Write(bytes);
      }
      left := left - n;
    }
    status := Fine;
  }

  /** Reads a 32-bit size and passes it on. */
  method CopyCount(input: TypeInput, out: TypeOutput?) returns (status: Status, count: nat)
    requires input.Valid()
    modifies input`pos, out
    ensures Moved(input, out, CopyBlock(4, old(input.Rest())), status)
    ensures status.Fine? ==> count == FromLittleEndian(old(input.Rest())[..4])
  {
    var ok, bytes := input.Read(4);
    if !ok {
      return Threw, 0;
    }
    if out != null {
      out.Write(bytes);
    }
    return Fine, FromLittleEndian(bytes);
  }

  /** The loops over items: one code after the other, starting over when there are more items. */
  method CopyEach(
      input: TypeInput, out: TypeOutput?, types: TypeInfo, code: seq<Cell>, at: seq<nat>, count: nat,
      ghost parts: seq<Schema>) returns (status: Status)
    requires input.Valid() && Compiled(types) && input.depth <= MAX_RECURSION
    requires |at| == |parts| && (count > 0 ==> |at| > 0)
    requires forall k: nat :: k < |at| ==>
               WellFormed(code, types, at[k]) && Decode(code, types, at[k]) == parts[k]
    modifies input, out
    ensures Moved(input, out, CopyItems(parts, 0, count, old(input.Rest()), old(input.depth)), status)
    decreases MAX_RECURSION + 1 - input.depth, 2
  {
    hide Decode, WellFormed, Copy, CopyItems, Chain, Compiled;
    var depth := input.depth;
    ghost var all := CopyItems(parts, 0, count, input.Rest(), depth);
    ghost var done := Copied(0, []);
    ChainNothing(all);
    var i := 0;
    while i < count
      invariant 0 <= i <= count && input.Valid() && input.depth == depth
      invariant all == Chain(done, CopyItems(parts, i, count, input.Rest(), depth))
      invariant done.size <= |old(input.Rest())| && input.pos == old(input.pos) + done.size
      invariant out != null ==> out.data == old(out.data) + done.out
    {
      ghost var here := input.Rest();
      var k := if |at| == 1 then 0 else if i < |at| then i else i % |at|;
      assert parts[k] == Part(parts, i);
      CopyOneMore(done, parts, i, count, here, depth);
      status := CopyValue(input, out, types, code, at[k]);
      if !status.Fine? {
        return;
      }
      ghost var first := Copy(parts[k], here, depth).value;
      assert input.Rest() == here[first.size..];
      done := Copied(done.size + first.size, done.out + first.out);
      i := i + 1;
    }
    CopyNoMore(done, parts, count, input.Rest(), depth);
    status := Fine;
  }

  lemma CopyItemsNext(parts: seq<Schema>, i: nat, n: nat, data: seq<Byte>, depth: nat)
    requires i <= n
    ensures CopyItems(parts, i, n, data, depth) ==
              if i == n then Done(Copied(0, []))
              else
                var first := Copy(Part(parts, i), data, depth);
                if !first.Done? then first
                else Chain(first.value, CopyItems(parts, i + 1, n, data[first.value.size..], depth))
  {
  }

  lemma ChainNothing(r: Outcome<Copied>)
    ensures Chain(Copied(0, []), r) == r
  {
    if r.Done? {
      assert [] + r.value.out == r.value.out;
    }
  }

  lemma ChainTwice(a: Copied, b: Copied, r: Outcome<Copied>)
    ensures Chain(a, Chain(b, r)) == Chain(Copied(a.size + b.size, a.out + b.out), r)
  {
    if r.Done? {
      assert a.out + (b.out + r.value.out) == a.out + b.out + r.value.out;
    }
  }

  /** What is left to copy, before and after one more item. */
  lemma {:induction false} CopyOneMore(
      done: Copied, parts: seq<Schema>, i: nat, n: nat, data: seq<Byte>, depth: nat)
    requires i < n
    ensures var first := Copy(Part(parts, i), data, depth);
            Chain(done, CopyItems(parts, i, n, data, depth)) ==
              if !first.Done? then first
              else
                Chain(Copied(done.size + first.value.size, done.out + first.value.out),
                      CopyItems(parts, i + 1, n, data[first.value.size..], depth))
  {
    hide Copy, CopyItems;
    CopyItemsNext(parts, i, n, data, depth);
    var first := Copy(Part(parts, i), data, depth);
    if first.Done? {
      ChainTwice(done, first.value, CopyItems(parts, i + 1, n, data[first.value.size..], depth));
    }
  }

  /** Nothing is left to copy. */
  lemma {:induction false} CopyNoMore(done: Copied, parts: seq<Schema>, n: nat, data: seq<Byte>, depth: nat)
    ensures Chain(done, CopyItems(parts, n, n, data, depth)) == Done(done)
  {
    assert done.out + [] == done.out;
  }

  /** `copy` with a code. */
  method CopyValue(input: TypeInput, out: TypeOutput?, types: TypeInfo, code: seq<Cell>, pos: nat)
    returns (status: Status)
    requires input.Valid() && Compiled(types) && WellFormed(code, types, pos)
    modifies input, out
    ensures Moved(input, out, Copy(Decode(code, types, pos), old(input.Rest()), old(input.depth)), status)
    decreases MAX_RECURSION + 1 - input.depth, 1
  {
    hide Decode, WellFormed, CopyInside;
    input.depth := input.depth + 1;
    if input.depth > MAX_RECURSION {
      status := Threw;
    } else {
      status := CopyCode(input, out, types, code, pos);
    }
    input.depth := input.depth - 1;
  }

  /** The switch of `copy` over the first cell of the code. */
  method CopyCode(input: TypeInput, out: TypeOutput?, types: TypeInfo, code: seq<Cell>, pos: nat)
    returns (status: Status)
    requires input.Valid() && Compiled(types) && WellFormed(code, types, pos)
    requires input.depth <= MAX_RECURSION
    modifies input, out
    ensures Moved(input, out, CopyInside(Decode(code, types, pos), old(input.Rest()), old(input.depth)), status)
    decreases MAX_RECURSION + 1 - input.depth, 5
  {
    hide Decode, CopyInside, Fetch;
    var c := code[pos];
    if c == CODE_ARRAY {
      status := CopyArray(input, out, types, code, pos);
    } else if c == CODE_LIST {
      status := CopyList(input, out, types, code, pos);
    } else if c == CODE_MAP {
      status := CopyMap(input, out, types, code, pos);
    } else if c == CODE_DYNAMIC {
      status := CopyDynamic(input, out, types, code, pos);
    } else if c == CODE_MATRIX {
      status := CopyMatrix(input, out, types, code, pos);
    } else if c == CODE_IMAGE {
      status := CopyImage(input, out, types, code, pos);
    } else if c == CODE_TUPLE {
      status := CopyTuple(input, out, types, code, pos);
    } else if c == CODE_OBJECT {
      status := CopyObject(input, out, types, code, pos);
    } else if c == CODE_OPTIONAL {
      status := CopyOptional(input, out, types, code, pos);
    } else if c == CODE_STRUCT {
      status := CopyStruct(input, out, types, code, pos);
    } else if c == CODE_STRING {
      status := CopyString(input, out, types, code, pos);
    } else {
      status := CopyNumber(input, out, types, code, pos);
    }
  }

  /** Items of one kind: in bulk if the code fixes their size. */
  method CopyRun(
      input: TypeInput, out: TypeOutput?, types: TypeInfo, code: seq<Cell>, at: nat, count: nat)
    returns (status: Status)
    requires input.Valid() && Compiled(types) && WellFormed(code, types, at)
    requires input.depth <= MAX_RECURSION
    modifies input, out
    ensures Moved(input, out,
                  CopyElements(Decode(code, types, at), count, old(input.Rest()), old(input.depth)), status)
    decreases MAX_RECURSION + 1 - input.depth, 3
  {
    hide Decode, WellFormed, FixedSize, ValueSize, CopyItems;
    var size := ValueSize(code, types, at);
    ValueSizeIsFixedSize(code, types, at);
    if size > 0 {
      status := CopyBytes(input, out, count * size);
    } else {
      status := CopyEach(input, out, types, code, [at], count, [Decode(code, types, at)]);
    }
  }

  method CopyArray(input: TypeInput, out: TypeOutput?, types: TypeInfo, code: seq<Cell>, pos: nat)
    returns (status: Status)
    requires input.Valid() && Compiled(types) && WellFormed(code, types, pos) && code[pos] == CODE_ARRAY
    requires input.depth <= MAX_RECURSION
    modifies input, out
    ensures Moved(input, out, CopyInside(Decode(code, types, pos), old(input.Rest()), old(input.depth)), status)
    decreases MAX_RECURSION + 1 - input.depth, 4
  {
    hide Decode, WellFormed, CopyElements;
    DecodeElement(code, types, pos);
    ghost var r := CopyElements(Decode(code, types, pos + 2), code[pos + 1], input.Rest(), input.depth);
    status := CopyRun(input, out, types, code, pos + 2, code[pos + 1]);
    ChainNothing(r);
  }

  method CopyList(input: TypeInput, out: TypeOutput?, types: TypeInfo, code: seq<Cell>, pos: nat)
    returns (status: Status)
    requires input.Valid() && Compiled(types) && WellFormed(code, types, pos) && code[pos] == CODE_LIST
    requires input.depth <= MAX_RECURSION
    modifies input, out
    ensures Moved(input, out, CopyInside(Decode(code, types, pos), old(input.Rest()), old(input.depth)), status)
    decreases MAX_RECURSION + 1 - input.depth, 4
  {
    hide Decode, WellFormed, CopyElements;
    DecodeElement(code, types, pos);
    var count;
    status, count := CopyCount(input, out);
    if status.Fine? {
      status := CopyRun(input, out, types, code, pos + 1, count);
    }
  }

  method CopyMap(input: TypeInput, out: TypeOutput?, types: TypeInfo, code: seq<Cell>, pos: nat)
    returns (status: Status)
    requires input.Valid() && Compiled(types) && WellFormed(code, types, pos) && code[pos] == CODE_MAP
    requires input.depth <= MAX_RECURSION
    modifies input, out
    ensures Moved(input, out, CopyInside(Decode(code, types, pos), old(input.Rest()), old(input.depth)), status)
    decreases MAX_RECURSION + 1 - input.depth, 4
  {
    hide Decode, WellFormed, CopyItems;
    DecodeMap(code, types, pos);
    var count;
    status, count := CopyCount(input, out);
    if status.Fine? {
      status := CopyEach(input, out, types, code, [pos + 2, pos + code[pos + 1]], 2 * count,
                         [Decode(code, types, pos + 2), Decode(code, types, pos + code[pos + 1])]);
    }
  }

  method CopyTuple(input: TypeInput, out: TypeOutput?, types: TypeInfo, code: seq<Cell>, pos: nat)
    returns (status: Status)
    requires input.Valid() && Compiled(types) && WellFormed(code, types, pos) && code[pos] == CODE_TUPLE
    requires input.depth <= MAX_RECURSION
    modifies input, out
    ensures Moved(input, out, CopyInside(Decode(code, types, pos), old(input.Rest()), old(input.depth)), status)
    decreases MAX_RECURSION + 1 - input.depth, 4
  {
    hide Decode, WellFormed, CopyItems, Fetch;
    DecodeTupleCode(code, types, pos);
    var at := TupleChildren(code, pos);
    ghost var parts := DecodeAll(code, types, pos, at);
    ghost var r := CopyItems(parts, 0, |at|, input.Rest(), input.depth);
    status := CopyEach(input, out, types, code, at, |at|, parts);
    ChainNothing(r);
  }

  method CopyOptional(input: TypeInput, out: TypeOutput?, types: TypeInfo, code: seq<Cell>, pos: nat)
    returns (status: Status)
    requires input.Valid() && Compiled(types) && WellFormed(code, types, pos) && code[pos] == CODE_OPTIONAL
    requires input.depth <= MAX_RECURSION
    modifies input, out
    ensures Moved(input, out, CopyInside(Decode(code, types, pos), old(input.Rest()), old(input.depth)), status)
    decreases MAX_RECURSION + 1 - input.depth, 4
  {
    hide Decode, WellFormed, Copy;
    DecodeElement(code, types, pos);
    ghost var elem := Decode(code, types, pos + 1);
    var ok, bytes := input.Read(1);
    if !ok {
      return Threw;
    }
    var flag := bytes[0] != 0;
    if out != null {
      out.Write([if flag then 1 else 0]);
    }
    ghost var rest := input.Rest();
    CopyItemsNext([elem], 1, 1, rest, input.depth);
    if flag {
      CopyItemsNext([elem], 0, 1, rest, input.depth);
      status := CopyEach(input, out, types, code, [pos + 1], 1, [elem]);
    } else {
      CopyItemsNext([elem], 0, 0, rest, input.depth);
      status := Fine;
    }
  }

  method CopyMatrix(input: TypeInput, out: TypeOutput?, types: TypeInfo, code: seq<Cell>, pos: nat)
    returns (status: Status)
    requires input.Valid() && Compiled(types) && WellFormed(code, types, pos) && code[pos] == CODE_MATRIX
    requires input.depth <= MAX_RECURSION
    modifies input, out
    ensures Moved(input, out, CopyInside(Decode(code, types, pos), old(input.Rest()), old(input.depth)), status)
    decreases MAX_RECURSION + 1 - input.depth, 4
  {
    hide Decode, WellFormed, CopyElements;
    DecodeElement(code, types, pos);
    var dims := code[pos + 2..pos + 2 + code[pos + 1]];
    if dims == [] {
      return Threw;
    }
    var size := TotalSize(dims);
    ghost var r := CopyElements(Decode(code, types, pos + 2 + |dims|), size, input.Rest(), input.depth);
    status := CopyRun(input, out, types, code, pos + 2 + |dims|, size);
    ChainNothing(r);
  }

  method CopyImage(input: TypeInput, out: TypeOutput?, types: TypeInfo, code: seq<Cell>, pos: nat)
    returns (status: Status)
    requires input.Valid() && Compiled(types) && WellFormed(code, types, pos) && code[pos] == CODE_IMAGE
    requires input.depth <= MAX_RECURSION
    modifies input, out
    ensures Moved(input, out, CopyInside(Decode(code, types, pos), old(input.Rest()), old(input.depth)), status)
    decreases MAX_RECURSION + 1 - input.depth, 4
  {
    hide Decode, WellFormed, CopyElements;
    DecodeElement(code, types, pos);
    var rank: nat := code[pos + 1];
    if rank == 0 {
      return Threw;
    }
    var ok, bytes := input.Read(4 * rank);
    if !ok {
      return Threw;
    }
    if out != null {
      out.Write(bytes);
    }
    var size := TotalSize(ReadDims(bytes, rank));
    ReadDimsPrefix(old(input.Rest()), rank);
    status := CopyRun(input, out, types, code, pos + 2, size);
  }

  /** A value that is only a head. */
  lemma {:induction false} CopyHeadOnly(s: Schema, data: seq<Byte>, depth: nat, size: nat)
    requires depth <= MAX_RECURSION && size <= |data|
    requires ReadHead(s, data) == Done(Head(size, data[..size], [], 0, false, 0))
    ensures CopyInside(s, data, depth) == Done(Copied(size, data[..size]))
  {
    hide ReadHead;
    assert data[..size] + [] == data[..size];
    CopyItemsNext([], 0, 0, data[size..], depth);
  }

  lemma CopyInsideFails(s: Schema, data: seq<Byte>, depth: nat)
    requires depth <= MAX_RECURSION
    ensures ReadHead(s, data).Failed? ==> CopyInside(s, data, depth).Failed?
    ensures ReadHead(s, data).Outside? ==> CopyInside(s, data, depth).Outside?
  {
  }

  method CopyString(input: TypeInput, out: TypeOutput?, types: TypeInfo, code: seq<Cell>, pos: nat)
    returns (status: Status)
    requires input.Valid() && Compiled(types) && WellFormed(code, types, pos) && code[pos] == CODE_STRING
    requires input.depth <= MAX_RECURSION
    modifies input, out
    ensures Moved(input, out, CopyInside(Decode(code, types, pos), old(input.Rest()), old(input.depth)), status)
    decreases MAX_RECURSION + 1 - input.depth, 4
  {
    DecodeSimple(code, types, pos);
    hide Decode, WellFormed, CopyInside, CopyItems;
    ghost var data := input.Rest();
    CopyInsideFails(Str, data, input.depth);
    var count;
    status, count := CopyCount(input, out);
    if status.Fine? {
      if 4 + count <= |data| {
        CopyHeadOnly(Str, data, input.depth, 4 + count);
        assert data[..4 + count] == data[..4] + data[4..][..count];
      }
      status := CopyBytes(input, out, count);
    }
  }

  /** Numbers are copied as they are. */
  lemma {:induction false} CopyNumberOutcome(s: Schema, data: seq<Byte>, depth: nat)
    requires depth <= MAX_RECURSION
    requires s.Null? || s.Prim? || s.Any? || s.TypeDesc? || s.Foreign?
    ensures CopyInside(s, data, depth) ==
              if s.Null? then Done(Copied(0, []))
              else if s.Prim? then CopyBlock(Width(s.kind), data)
              else Outside
  {
    hide CopyInside, CopyItems;
    var head := ReadHead(s, data);
    CopyInsideFails(s, data, depth);
    if head.Done? {
      CopyHeadOnly(s, data, depth, head.value.size);
      assert data[..0] == [];
    }
  }

  method CopyNumber(input: TypeInput, out: TypeOutput?, types: TypeInfo, code: seq<Cell>, pos: nat)
    returns (status: Status)
    requires input.Valid() && Compiled(types) && WellFormed(code, types, pos) && !IsComposite(code[pos])
    requires input.depth <= MAX_RECURSION
    modifies input, out
    ensures Moved(input, out, CopyInside(Decode(code, types, pos), old(input.Rest()), old(input.depth)), status)
    decreases MAX_RECURSION + 1 - input.depth, 4
  {
    var c := code[pos];
    DecodeNumber(code, types, pos);
    hide Decode, WellFormed, CopyInside;
    hide IsComposite, Width;
    CopyNumberOutcome(Decode(code, types, pos), input.Rest(), input.depth);
    if c == CODE_NULL {
      status := Fine;
    } else if Width(c) > 0 {
      var ok, bytes := input.Read(Width(c));
      if !ok {
        return Threw;
      }
      if out != null {
        out.Write(bytes);
      }
      status := Fine;
    } else {
      status := NotModelled;
    }
  }

  /** `read_byte_code`, with the bytes it read. */
  method ReadDynamicCode(input: TypeInput) returns (ok: bool, code: seq<Cell>, raw: seq<Byte>)
    requires input.Valid()
    modifies input`pos
    ensures input.Valid()
    ensures var r := ReadByteCode(old(input.Rest()));
            && ok == r.Done?
            && (ok ==> r.value == (code, LittleEndian(|code|, 2) + raw) && input.pos == old(input.pos) + |r.value.1|)
  {
    var bytes;
    code, raw := [], [];
    ok, bytes := input.Read(2);
    if !ok {
      return;
    }
    assert bytes[..2] == bytes;
    var size := ReadCell(bytes);
    if size > 0xFF {
      size := Flip(size);
    }
    if size == 0 || size > MAX_BYTE_CODE_SIZE {
      return false, code, raw;
    }
    ok, raw := input.Read(2 * size);
    if !ok {
      return;
    }
    code := ReadCells(raw, size);
    ReadCellsPrefix(old(input.Rest())[2..], size);
    assert old(input.Rest())[2..][..2 * size] == old(input.Rest())[2..2 + 2 * size];
    ok := Validate(code, NoType, 0, 0).Ok?;
  }

  lemma {:induction false} ReadCellsPrefix(data: seq<Byte>, n: nat)
    requires 2 * n <= |data|
    ensures ReadCells(data[..2 * n], n) == ReadCells(data, n)
  {
    if n > 0 {
      assert data[..2 * n][..2] == data[..2];
      assert data[..2 * n][2..] == data[2..][..2 * (n - 1)];
      ReadCellsPrefix(data[2..], n - 1);
    }
  }

  /** A single item is just that item. */
  lemma {:induction false} OneItem(elem: Schema, data: seq<Byte>, depth: nat)
    ensures CopyItems([elem], 0, 1, data, depth) == Copy(elem, data, depth)
  {
    hide Copy, CopyItems;
    CopyItemsNext([elem], 0, 1, data, depth);
    var first := Copy(elem, data, depth);
    if first.Done? {
      CopyItemsNext([elem], 1, 1, data[first.value.size..], depth);
      assert first.value.out + [] == first.value.out;
    }
  }

  method CopyDynamic(input: TypeInput, out: TypeOutput?, types: TypeInfo, code: seq<Cell>, pos: nat)
    returns (status: Status)
    requires input.Valid() && Compiled(types) && WellFormed(code, types, pos) && code[pos] == CODE_DYNAMIC
    requires input.depth <= MAX_RECURSION
    modifies input, out
    ensures Moved(input, out, CopyInside(Decode(code, types, pos), old(input.Rest()), old(input.depth)), status)
    decreases MAX_RECURSION + 1 - input.depth, 4
  {
    hide Decode, WellFormed, Copy, CopyItems, ReadByteCode;
    DecodeSimple(code, types, pos);
    var ok, inner, raw := ReadDynamicCode(input);
    if !ok {
      return Threw;
    }
    if out != null {
      out.Write(LittleEndian(|inner|, 2));
      out.Write(raw);
    }
    DecodeIgnoresTypes(inner, types, 0);
    OneItem(Decode(inner, NoType, 0), input.Rest(), input.depth);
    status := CopyValue(input, out, types, inner, 0);
  }

  /** Copying an object is copying a map from strings to dynamic values, one level down. */
  lemma {:induction false} ObjectIsMap(data: seq<Byte>, depth: nat)
    requires depth <= MAX_RECURSION
    ensures CopyInside(Obj, data, depth) == Copy(Assoc(Str, Dyn), data, depth)
  {
    hide CopyItems;
    var r := ReadHead(Obj, data);
    if depth + 1 <= MAX_RECURSION {
      assert Copy(Assoc(Str, Dyn), data, depth) == CopyInside(Assoc(Str, Dyn), data, depth + 1);
      if r.Done? {
        var h := r.value;
        assert CopyInside(Obj, data, depth) == CopyBody(h, data[4..], depth + 1);
        assert CopyInside(Assoc(Str, Dyn), data, depth + 1) == CopyBody(h.(extra := 0), data[4..], depth + 1);
      }
    }
  }

  method CopyObject(input: TypeInput, out: TypeOutput?, types: TypeInfo, code: seq<Cell>, pos: nat)
    returns (status: Status)
    requires input.Valid() && Compiled(types) && WellFormed(code, types, pos) && code[pos] == CODE_OBJECT
    requires input.depth <= MAX_RECURSION
    modifies input, out
    ensures Moved(input, out, CopyInside(Decode(code, types, pos), old(input.Rest()), old(input.depth)), status)
    decreases MAX_RECURSION + 1 - input.depth, 4
  {
    hide Decode, WellFormed, Copy, CopyInside;
    DecodeSimple(code, types, pos);
    ObjectIsMap(input.Rest(), input.depth);
    var objectCode: seq<Cell> := [CODE_MAP, 3, CODE_STRING, CODE_DYNAMIC];
    CheckObjectCode(objectCode, types);
    status := CopyValue(input, out, types, objectCode, 0);
  }

  lemma {:induction false} CheckObjectCode(objectCode: seq<Cell>, types: TypeInfo)
    requires objectCode == [CODE_MAP, 3, CODE_STRING, CODE_DYNAMIC] && Compiled(types)
    ensures WellFormed(objectCode, types, 0) && Decode(objectCode, types, 0) == Assoc(Str, Dyn)
  {
    CheckFlatten(objectCode, types, Assoc(Str, Dyn));
  }

  method CopyStruct(input: TypeInput, out: TypeOutput?, types: TypeInfo, code: seq<Cell>, pos: nat)
    returns (status: Status)
    requires input.Valid() && Compiled(types) && WellFormed(code, types, pos) && code[pos] == CODE_STRUCT
    requires input.depth <= MAX_RECURSION
    modifies input, out
    ensures Moved(input, out, CopyInside(Decode(code, types, pos), old(input.Rest()), old(input.depth)), status)
    decreases MAX_RECURSION + 1 - input.depth, 4
  {
    hide WellFormed, CopyItems, Copy;
    StructCode(code, types, pos);
    var inner := types.depends[code[pos + 1]];
    ghost var parts := StructOf(inner, code[pos + 1]).ext;
    hide Decode;
    status := CopyFields(input, out, inner, parts);
  }

  /** The primitive block of a struct or class, then its extended fields. */
  method CopyFields(input: TypeInput, out: TypeOutput?, types: TypeInfo, ghost parts: seq<Schema>)
    returns (status: Status)
    requires input.Valid() && types.TypeInfo? && Compiled(types)
    requires input.depth <= MAX_RECURSION && |parts| == |types.ext|
    requires forall k: nat :: k < |parts| ==>
               WellFormed(types.ext[k], types, 0) && parts[k] == Decode(types.ext[k], types, 0)
    modifies input, out
    ensures var data, depth := old(input.Rest()), old(input.depth);
            Moved(input, out,
                  if |data| < types.total then Failed
                  else Chain(Copied(types.total, data[..types.total]),
                             CopyItems(parts, 0, |parts|, data[types.total..], depth)),
                  status)
    decreases MAX_RECURSION + 1 - input.depth, 3
  {
    hide Decode, WellFormed, Copy, CopyItems, Compiled;
    var ok, bytes := input.Read(types.total);
    if !ok {
      return Threw;
    }
    if out != null {
      out.Write(bytes);
    }
    status := CopyExtended(input, out, types, parts);
  }

  /** The extended fields, each by its own code. */
  method CopyExtended(input: TypeInput, out: TypeOutput?, types: TypeInfo, ghost parts: seq<Schema>)
    returns (status: Status)
    requires input.Valid() && types.TypeInfo? && Compiled(types)
    requires input.depth <= MAX_RECURSION && |parts| == |types.ext|
    requires forall k: nat :: k < |parts| ==>
               WellFormed(types.ext[k], types, 0) && parts[k] == Decode(types.ext[k], types, 0)
    modifies input, out
    ensures Moved(input, out, CopyItems(parts, 0, |parts|, old(input.Rest()), old(input.depth)), status)
    decreases MAX_RECURSION + 1 - input.depth, 2
  {
    hide Decode, WellFormed, Copy, CopyItems, Chain, Compiled;
    var depth := input.depth;
    ghost var all := CopyItems(parts, 0, |parts|, input.Rest(), depth);
    ghost var done := Copied(0, []);
    ChainNothing(all);
    var i := 0;
    while i < |types.ext|
      invariant 0 <= i <= |parts| && input.Valid() && input.depth == depth
      invariant all == Chain(done, CopyItems(parts, i, |parts|, input.Rest(), depth))
      invariant done.size <= |old(input.Rest())| && input.pos == old(input.pos) + done.size
      invariant out != null ==> out.data == old(out.data) + done.out
    {
      ghost var here := input.Rest();
      CopyOneMore(done, parts, i, |parts|, here, depth);
      status := CopyValue(input, out, types, types.ext[i], 0);
      if !status.Fine? {
        return;
      }
      ghost var first := Copy(parts[i], here, depth).value;
      assert input.Rest() == here[first.size..];
      done := Copied(done.size + first.size, done.out + first.out);
      i := i + 1;
    }
    CopyNoMore(done, parts, |parts|, input.Rest(), depth);
    status := Fine;
  }

  /** `read_matrix_size`, `read_image_size`: the number of elements. */
  method TotalSize(dims: seq<nat>) returns (size: nat)
    ensures size == Product(dims)
  {
    size := 1;
    var i := 0;
    while i < |dims|
      invariant 0 <= i <= |dims| && size * Product(dims[i..]) == Product(dims)
    {
      ProductStep(size, dims[i..]);
      assert dims[i..][1..] == dims[i + 1..];
      size := size * dims[i];
      i := i + 1;
    }
  }

  lemma {:induction false} ProductStep(size: nat, dims: seq<nat>)
    requires dims != []
    ensures size * Product(dims) == size * dims[0] * Product(dims[1..])
  {
    var first, rest := dims[0], Product(dims[1..]);
    assert Product(dims) == first * rest;
    TimesTimes(size, first, rest);
  }

  lemma TimesTimes(a: nat, b: nat, c: nat)
    ensures a * (b * c) == a * b * c
  {
  }

  lemma {:induction false} ReadDimsPrefix(data: seq<Byte>, n: nat)
    requires 4 * n <= |data|
    ensures ReadDims(data[..4 * n], n) == ReadDims(data, n)
  {
    if n > 0 {
      assert data[..4 * n][..4] == data[..4];
      assert data[..4 * n][4..] == data[4..][..4 * (n - 1)];
      ReadDimsPrefix(data[4..], n - 1);
    }
  }
}

/** Copying an encoded value reproduces exactly its bytes and stops exactly at its end. */
module CopyLaws {
  import opened Bytes
  import opened ByteCode
  import opened Schemas
  import opened Wire
  import opened CopySpec

  lemma Pow256Values()
    ensures Pow256(1) == 0x100 && Pow256(2) == 0x10000 && Pow256(4) == 0x1_0000_0000
  {
    assert Pow256(1) == 256 * Pow256(0);
    assert Pow256(2) == 256 * Pow256(1);
    assert Pow256(3) == 256 * Pow256(2);
  }

  /** An integer at the start of a stream. */
  lemma ReadInteger(n: nat, width: nat, rest: seq<Byte>)
    requires n < Pow256(width)
    ensures var data := LittleEndian(n, width) + rest;
            && data[..width] == LittleEndian(n, width) && data[width..] == rest
            && FromLittleEndian(data[..width]) == n
  {
    ReadBackInteger(n, width);
  }

  lemma {:induction false} ReadBackCells(code: seq<Cell>, rest: seq<Byte>)
    ensures ReadCells(CellBytes(code) + rest, |code|) == code
  {
    if code != [] {
      Pow256Values();
      ReadInteger(code[0], 2, CellBytes(code[1..]) + rest);
      assert CellBytes(code) + rest == LittleEndian(code[0], 2) + (CellBytes(code[1..]) + rest);
      ReadBackCells(code[1..], rest);
    }
  }

  lemma {:induction false} ReadBackDims(dims: seq<nat>, rest: seq<Byte>)
    requires forall d :: d in dims ==> d <= MAX_SIZE
    ensures ReadDims(DimBytes(dims) + rest, |dims|) == dims
  {
    hide LittleEndian, FromLittleEndian;
    if dims != [] {
      assert dims[0] in dims && forall d :: d in dims[1..] ==> d in dims;
      Pow256Values();
      ReadInteger(dims[0], 4, DimBytes(dims[1..]) + rest);
      assert DimBytes(dims) + rest == LittleEndian(dims[0], 4) + (DimBytes(dims[1..]) + rest);
      ReadBackDims(dims[1..], rest);
    }
  }

  /** `write_byte_code`: the size and the cells, unless there are too many. */
  function WriteByteCode(code: seq<Cell>): Outcome<seq<Byte>> {
    if |code| > MAX_BYTE_CODE_SIZE then Failed else Done(LittleEndian(|code|, 2) + CellBytes(code))
  }

  /**
   `read_byte_code` undoes `write_byte_code`, for the codes validation accepts and no others; codes that
   are too long are not written at all.
   */
  lemma {:induction false} ReadBackByteCode(code: seq<Cell>, rest: seq<Byte>)
    ensures WriteByteCode(code).Failed? <==> |code| > MAX_BYTE_CODE_SIZE
    ensures WriteByteCode(code).Done? ==>
              var head := WriteByteCode(code).value;
              ReadByteCode(head + rest) == if ValidDynamicCode(code) then Done((code, head)) else Failed
  {
    if |code| <= MAX_BYTE_CODE_SIZE {
      var head, tail := LittleEndian(|code|, 2) + CellBytes(code), CellBytes(code) + rest;
      var data := head + rest;
      Pow256Values();
      assert data == LittleEndian(|code|, 2) + tail;
      ReadInteger(|code|, 2, tail);
      ReadBackCells(code, rest);
      assert data[2..2 + 2 * |code|] == CellBytes(code);
    }
  }

  /** Reading the head of an encoded value. */
  lemma {:induction false} ReadBackHead(s: Schema, v: Value, rest: seq<Byte>)
    requires Fits(s, v)
    ensures var r := ReadHead(s, HeadOf(s, v) + rest);
            && r.Done? && r.value.size == |HeadOf(s, v)| && r.value.out == HeadOf(s, v)
            && r.value.parts == Parts(s, v) && r.value.count == |ItemsOf(v)|
            && r.value.bulk == Bulk(s) && r.value.extra == Extra(s)
  {
    hide ReadByteCode, Decode, WellFormed, Product, ReadDims, DimBytes, LittleEndian, FromLittleEndian;
    var head := HeadOf(s, v);
    var data := head + rest;
    assert data[..|head|] == head;
    Pow256Values();
    match s
    case Str =>
      ReadInteger(|v.bytes|, 4, v.bytes + rest);
      assert data == LittleEndian(|v.bytes|, 4) + (v.bytes + rest);
    case Lst(_) => ReadInteger(|v.items|, 4, rest);
    case Assoc(_, _) => ReadInteger(|v.items| / 2, 4, rest);
    case Obj => ReadInteger(|v.items| / 2, 4, rest);
    case Img(_, _) => ReadBackDims(v.dims, rest);
    case Dyn =>
      ReadBackByteCode(v.code, rest);
      ValidateDecides(v.code, NoType, 0, 0);
    case _ =>
  }

  predicate Bulk(s: Schema) {
    s.Arr? || s.Lst? || s.Mat? || s.Img?
  }

  function Extra(s: Schema): nat {
    if s.Obj? then 1 else 0
  }

  // ---------------------------------------------------------------------------------------------
  // Copying

  /** How many levels of `copy` a value takes: items copied in bulk take none. */
  function Nesting(s: Schema, v: Value): nat
    requires HasType(s, v)
    decreases v, 1
  {
    1 + Extra(s) + if Bulk(s) && FixedSize(s.elem) > 0 then 0 else ItemNesting(Parts(s, v), v, 0)
  }

  function ItemNesting(parts: seq<Schema>, v: Value, i: nat): nat
    requires i <= |ItemsOf(v)|
    requires forall k: nat :: i <= k < |ItemsOf(v)| ==> HasType(Part(parts, k), ItemsOf(v)[k])
    decreases v, 0, |ItemsOf(v)| - i
  {
    if i == |ItemsOf(v)| then 0
    else Max(Nesting(Part(parts, i), ItemsOf(v)[i]), ItemNesting(parts, v, i + 1))
  }

  /** Copying what was written yields the same bytes, all of them and no more, or overflows. */
  function Expected(bytes: seq<Byte>, levels: nat): Outcome<Copied> {
    if levels <= MAX_RECURSION then Done(Copied(|bytes|, bytes)) else Failed
  }

  lemma PartsAreSound(s: Schema, v: Value)
    requires Fits(s, v) && Sound(s)
    ensures forall i: nat :: i < |ItemsOf(v)| ==> Sound(Part(Parts(s, v), i))
  {
    if s.Dyn? {
      ValidateDecides(v.code, NoType, 0, 0);
      DecodeIsSound(v.code, NoType, 0);
    }
  }

  lemma {:induction false} CopyStep(
      s: Schema, h: Head, head: seq<Byte>, items: seq<Byte>, rest: seq<Byte>, depth: nat, levels: nat)
    requires ReadHead(s, head + (items + rest)) == Done(h) && h.out == head && h.size == |head|
    requires levels >= 1 + h.extra
    requires depth + 1 + h.extra <= MAX_RECURSION ==>
               (if h.bulk then CopyElements(h.parts[0], h.count, items + rest, depth + 1 + h.extra)
                else CopyItems(h.parts, 0, h.count, items + rest, depth + 1 + h.extra))
               == Expected(items, depth + levels)
    ensures Copy(s, head + items + rest, depth) == Expected(head + items, depth + levels)
  {
    hide ReadHead, CopyItems, CopyElements;
    var data := head + (items + rest);
    assert head + items + rest == data;
    assert data[h.size..] == items + rest;
    if depth + 1 <= MAX_RECURSION {
      assert Copy(s, data, depth) == CopyBody(h, items + rest, depth + 1 + h.extra);
    }
  }

  lemma {:induction false} CopyItemsStep(
      parts: seq<Schema>, i: nat, n: nat, first: seq<Byte>, more: seq<Byte>, rest: seq<Byte>,
      depth: nat, a: nat, b: nat)
    requires i < n
    requires Copy(Part(parts, i), first + (more + rest), depth) == Expected(first, depth + a)
    requires CopyItems(parts, i + 1, n, more + rest, depth) == Expected(more, depth + b)
    ensures CopyItems(parts, i, n, first + more + rest, depth) == Expected(first + more, depth + Max(a, b))
  {
    hide Copy, CopyItems;
    var data := first + (more + rest);
    assert first + more + rest == data;
    assert data[|first|..] == more + rest;
    CopyItemsNext(parts, i, n, data, depth);
  }

  lemma CopyItemsNext(parts: seq<Schema>, i: nat, n: nat, data: seq<Byte>, depth: nat)
    requires i < n
    ensures var first := Copy(Part(parts, i), data, depth);
            CopyItems(parts, i, n, data, depth)
            == if !first.Done? then first
               else Chain(first.value, CopyItems(parts, i + 1, n, data[first.value.size..], depth))
  {
    hide Copy;
  }

  /**
   Copying an encoded value, whatever follows it: all of its bytes come out, the stream is left
   exactly at its end, and the only way to fail is the recursion limit.
   */
  lemma {:induction false} CopyEncoded(s: Schema, v: Value, rest: seq<Byte>, depth: nat)
    requires HasType(s, v) && Sound(s)
    ensures Copy(s, Encode(s, v) + rest, depth) == Expected(Encode(s, v), depth + Nesting(s, v))
    decreases v, 1
  {
    hide Copy, CopyItems, ReadHead, HeadOf, Fits, FixedSize, FixedSum, Parts;
    var parts := Parts(s, v);
    var head, items := HeadOf(s, v), EncodeItems(parts, v, 0);
    ReadBackHead(s, v, items + rest);
    PartsAreSound(s, v);
    var h := ReadHead(s, head + (items + rest)).value;
    if Bulk(s) {
      BulkParts(s, v);
    }
    if Bulk(s) && FixedSize(s.elem) > 0 {
      RunOfFixedSize(s.elem, v, 0);
      assert (items + rest)[..|items|] == items;
    } else if depth + 1 + Extra(s) <= MAX_RECURSION {
      CopyItemsEncoded(parts, v, 0, rest, depth + 1 + Extra(s));
    }
    CopyStep(s, h, head, items, rest, depth, Nesting(s, v));
  }

  lemma BulkParts(s: Schema, v: Value)
    requires Bulk(s) && Sound(s)
    ensures Parts(s, v) == [s.elem] && Sound(s.elem)
  {
  }

  lemma {:induction false} CopyItemsEncoded(parts: seq<Schema>, v: Value, i: nat, rest: seq<Byte>, depth: nat)
    requires i <= |ItemsOf(v)| && depth <= MAX_RECURSION
    requires forall k: nat :: i <= k < |ItemsOf(v)| ==> HasType(Part(parts, k), ItemsOf(v)[k])
    requires forall k: nat :: i <= k < |ItemsOf(v)| ==> Sound(Part(parts, k))
    ensures CopyItems(parts, i, |ItemsOf(v)|, EncodeItems(parts, v, i) + rest, depth)
            == Expected(EncodeItems(parts, v, i), depth + ItemNesting(parts, v, i))
    decreases v, 0, |ItemsOf(v)| - i
  {
    hide Copy, HasType, Sound, Nesting, Encode;
    if i < |ItemsOf(v)| {
      var part, item := Part(parts, i), ItemsOf(v)[i];
      var more := EncodeItems(parts, v, i + 1);
      CopyEncoded(part, item, more + rest, depth);
      CopyItemsEncoded(parts, v, i + 1, rest, depth);
      CopyItemsStep(parts, i, |ItemsOf(v)|, Encode(part, item), more, rest, depth,
                    Nesting(part, item), ItemNesting(parts, v, i + 1));
    }
  }

  // ---------------------------------------------------------------------------------------------
  // The wire format is unambiguous

  /** The head and the items make up the value. */
  lemma {:induction false} HeadDetermines(s: Schema, v: Value, w: Value)
    requires Fits(s, v) && Fits(s, w) && HeadOf(s, v) == HeadOf(s, w) && ItemsOf(v) == ItemsOf(w)
    ensures v == w
  {
    hide LittleEndian, Product, Validate;
    match s
    case Str => assert v.bytes == HeadOf(s, v)[4..] && w.bytes == HeadOf(s, w)[4..];
    case Img(_, _) =>
      ReadBackDims(v.dims, []);
      ReadBackDims(w.dims, []);
    case Dyn => CodeDetermined(v.code, w.code);
    case _ =>
  }

  lemma {:induction false} CodeDetermined(a: seq<Cell>, b: seq<Cell>)
    requires LittleEndian(|a|, 2) + CellBytes(a) == LittleEndian(|b|, 2) + CellBytes(b)
    ensures a == b
  {
    hide LittleEndian;
    var data := LittleEndian(|a|, 2) + CellBytes(a);
    assert |data| == 2 + 2 * |a| == 2 + 2 * |b|;
    assert data[2..] == CellBytes(a) && data[2..] == CellBytes(b);
    ReadBackCells(a, []);
    ReadBackCells(b, []);
  }

  lemma {:induction false} HeadAndItems(s: Schema, v: Value, rest: seq<Byte>)
    requires HasType(s, v)
    ensures Encode(s, v) + rest == HeadOf(s, v) + (EncodeItems(Parts(s, v), v, 0) + rest)
    ensures Fits(s, v)
    ensures forall k: nat :: k < |ItemsOf(v)| ==> HasType(Part(Parts(s, v), k), ItemsOf(v)[k])
  {
    hide HeadOf, EncodeItems;
  }

  /** No encoding of a schema is the beginning of another one: the bytes tell the value and where it ends. */
  lemma {:induction false} EncodingIsUnique(s: Schema, v: Value, w: Value, ra: seq<Byte>, rb: seq<Byte>)
    requires HasType(s, v) && HasType(s, w) && Encode(s, v) + ra == Encode(s, w) + rb
    ensures v == w && ra == rb
    decreases v, 1
  {
    hide Encode, EncodeItems, HeadOf, HasType, ReadHead, Fits, Parts;
    var parts := Parts(s, v);
    HeadAndItems(s, v, ra);
    HeadAndItems(s, w, rb);
    var a, b := EncodeItems(parts, v, 0) + ra, EncodeItems(Parts(s, w), w, 0) + rb;
    ReadBackHead(s, v, a);
    ReadBackHead(s, w, b);
    var head := HeadOf(s, v);
    assert (head + a)[|head|..] == a && (head + b)[|head|..] == b;
    ItemsAreUnique(parts, v, w, 0, ra, rb);
    assert ItemsOf(v)[0..] == ItemsOf(v) && ItemsOf(w)[0..] == ItemsOf(w);
    HeadDetermines(s, v, w);
  }

  lemma {:induction false} ItemsAreUnique(
      parts: seq<Schema>, v: Value, w: Value, i: nat, ra: seq<Byte>, rb: seq<Byte>)
    requires i <= |ItemsOf(v)| == |ItemsOf(w)|
    requires forall k: nat :: i <= k < |ItemsOf(v)| ==> HasType(Part(parts, k), ItemsOf(v)[k])
    requires forall k: nat :: i <= k < |ItemsOf(w)| ==> HasType(Part(parts, k), ItemsOf(w)[k])
    requires EncodeItems(parts, v, i) + ra == EncodeItems(parts, w, i) + rb
    ensures ItemsOf(v)[i..] == ItemsOf(w)[i..] && ra == rb
    decreases v, 0, |ItemsOf(v)| - i
  {
    hide Encode, HasType;
    if i < |ItemsOf(v)| {
      var part, x, y := Part(parts, i), ItemsOf(v)[i], ItemsOf(w)[i];
      var a, b := EncodeItems(parts, v, i + 1), EncodeItems(parts, w, i + 1);
      assert EncodeItems(parts, v, i) + ra == Encode(part, x) + (a + ra);
      assert EncodeItems(parts, w, i) + rb == Encode(part, y) + (b + rb);
      EncodingIsUnique(part, x, y, a + ra, b + rb);
      ItemsAreUnique(parts, v, w, i + 1, ra, rb);
      assert ItemsOf(v)[i..] == [x] + ItemsOf(v)[i + 1..] && ItemsOf(w)[i..] == [y] + ItemsOf(w)[i + 1..];
    } else {
      assert [] + ra == ra && [] + rb == rb;
    }
  }

  // ---------------------------------------------------------------------------------------------
  // What only other programs write

  /** An optional is copied with any flag but 0 as one that is set, and its flag is written as 1. */
  lemma {:induction false} AnyFlag(elem: Schema, flag: Byte, v: Value, rest: seq<Byte>, depth: nat)
    requires HasType(elem, v) && Sound(elem) && depth + 1 + Nesting(elem, v) <= MAX_RECURSION
    ensures var bytes := Encode(elem, v);
            Copy(Opt(elem), [flag] + bytes + rest, depth)
            == if flag == 0 then Done(Copied(1, [0])) else Done(Copied(1 + |bytes|, [1] + bytes))
  {
    hide Copy, Encode, Nesting, CopyItems;
    var bytes := Encode(elem, v);
    var data := [flag] + (bytes + rest);
    assert [flag] + bytes + rest == data && data[1..] == bytes + rest;
    CopyEncoded(elem, v, rest, depth + 1);
    OptionalCopied(elem, flag, bytes + rest, depth);
  }

  lemma {:induction false} OptionalCopied(elem: Schema, flag: Byte, more: seq<Byte>, depth: nat)
    requires depth + 1 <= MAX_RECURSION
    ensures var r := Copy(elem, more, depth + 1);
            Copy(Opt(elem), [flag] + more, depth)
            == if flag == 0 then Done(Copied(1, [0])) else Chain(Copied(1, [1]), r)
  {
    var data := [flag] + more;
    assert data[1..] == more;
    var n := if flag == 0 then 0 else 1;
    var h := Head(1, [n], [elem], n, false, 0);
    assert ReadHead(Opt(elem), data) == Done(h);
    assert Copy(Opt(elem), data, depth) == CopyBody(h, more, depth + 1);
    OneItem(elem, n, more, depth + 1);
    hide Copy, CopyItems;
    assert [n] + [] == [n];
  }

  lemma {:induction false} OneItem(elem: Schema, n: nat, data: seq<Byte>, depth: nat)
    requires n <= 1
    ensures CopyItems([elem], 0, n, data, depth) == if n == 0 then Done(Copied(0, [])) else Copy(elem, data, depth)
  {
    hide Copy;
    if n == 1 {
      var r := Copy(elem, data, depth);
      if r.Done? {
        assert CopyItems([elem], 1, 1, data[r.value.size..], depth) == Done(Copied(0, []));
        assert r.value.out + [] == r.value.out;
      }
    }
  }
}

/**
 Reading a value written under an old version of its type into the native version: generated
 `write` and `read` of a class, over the layout and the links of `TypeCodes`.
 */
module Evolution {
  import opened Bytes
  import opened ByteCode
  import opened Schemas
  import opened Wire
  import opened CopySpec
  import opened CopyLaws
  import opened Streams
  import opened Types
  import opened TypeCodes

  /** What a member is converted from: the code and the bytes of the field that was sent. */
  datatype Slot = Slot(code: seq<Cell>, bytes: seq<Byte>)

  /** The members of a native object; None is a member that still has its default value. */
  class NativeValue {
    var members: seq<Option<Slot>>

    constructor (n: nat)
      ensures |members| == n && forall i: nat :: i < n ==> members[i].None?
    {
      members := seq(n, _ => None);
    }
  }

  // ---------------------------------------------------------------------------------------------
  // Values of a class

  function SchemaOf(f: Field, types: TypeInfo): Schema
    requires WellFormed(f.code, types, 0) && Compiled(types)
  {
    Decode(f.code, types, 0)
  }

  /** One value for each field: the bytes of a primitive one, a value of its type for another. */
  predicate Values(fields: seq<Field>, types: TypeInfo, values: seq<Value>)
    requires Compiled(types)
  {
    && |values| == |fields|
    && forall j: nat :: j < |fields| ==>
         if fields[j].extended then
           WellFormed(fields[j].code, types, 0) && HasType(SchemaOf(fields[j], types), values[j])
         else values[j].Raw? && |values[j].bytes| == fields[j].dataSize
  }

  /** The block of the first n fields. */
  function BlockOf(fields: seq<Field>, values: seq<Value>, n: nat): seq<Byte>
    requires n <= |fields| == |values|
    requires forall j: nat :: j < |fields| && !fields[j].extended ==> values[j].Raw?
  {
    if n == 0 then []
    else BlockOf(fields, values, n - 1) + if fields[n - 1].extended then [] else values[n - 1].bytes
  }

  function ValuesAt(values: seq<Value>, at: seq<nat>): (r: seq<Value>)
    requires forall k: nat :: k < |at| ==> at[k] < |values|
    ensures |r| == |at|
  {
    seq(|at|, k requires 0 <= k < |at| => values[at[k]])
  }

  /** A value of the class on the wire: the block, then the extended fields. */
  function ClassValue(fields: seq<Field>, values: seq<Value>): Value
    requires |fields| == |values|
    requires forall j: nat :: j < |fields| && !fields[j].extended ==> values[j].Raw?
  {
    Fields(BlockOf(fields, values, |fields|), ValuesAt(values, Extended(fields, |fields|)))
  }

  /** The bytes of field j. */
  function FieldBytes(fields: seq<Field>, types: TypeInfo, values: seq<Value>, j: nat): seq<Byte>
    requires Compiled(types) && Values(fields, types, values) && j < |fields|
  {
    if fields[j].extended then Encode(SchemaOf(fields[j], types), values[j]) else values[j].bytes
  }

  lemma {:induction false} BlockSize(fields: seq<Field>, values: seq<Value>, n: nat)
    requires n <= |fields| == |values|
    requires forall j: nat :: j < |fields| && !fields[j].extended ==>
               values[j].Raw? && |values[j].bytes| == fields[j].dataSize
    ensures |BlockOf(fields, values, n)| == Before(fields, n)
  {
    if n > 0 {
      BlockSize(fields, values, n - 1);
    }
  }

  /** A primitive field stands in the block where `compile` says. */
  lemma {:induction false} BlockAt(fields: seq<Field>, values: seq<Value>, j: nat, n: nat)
    requires j < n <= |fields| == |values| && !fields[j].extended
    requires forall j: nat :: j < |fields| && !fields[j].extended ==>
               values[j].Raw? && |values[j].bytes| == fields[j].dataSize
    ensures Before(fields, j) + fields[j].dataSize <= |BlockOf(fields, values, n)|
    ensures BlockOf(fields, values, n)[Before(fields, j)..Before(fields, j) + fields[j].dataSize] == values[j].bytes
    decreases n
  {
    BlockSize(fields, values, n - 1);
    var left := BlockOf(fields, values, n - 1);
    if j < n - 1 {
      BlockAt(fields, values, j, n - 1);
      var i, size := Before(fields, j), fields[j].dataSize;
      assert BlockOf(fields, values, n)[i..i + size] == left[i..i + size];
    } else {
      assert BlockOf(fields, values, n) == left + values[j].bytes;
    }
  }

  /** A type that is compiled, as the interpreters see it. */
  predicate InfoFits(types: TypeInfo, fields: seq<Field>) {
    && types.TypeInfo? && Compiled(types) && types.total == Before(fields, |fields|)
    && types.ext == ExtCodes(fields, Extended(fields, |fields|))
  }

  lemma {:induction false} ExtendedFit(fields: seq<Field>, types: TypeInfo, k: nat)
    requires InfoFits(types, fields) && k < |Extended(fields, |fields|)|
    ensures var f := fields[Extended(fields, |fields|)[k]];
            && f.extended && f.code == types.ext[k] && WellFormed(f.code, types, 0)
            && StructOf(types, 0).ext[k] == SchemaOf(f, types)
  {
    assert types.ext[k] in types.ext;
  }

  /** Class values are values of the struct the type describes. */
  lemma {:induction false} ClassHasType(fields: seq<Field>, types: TypeInfo, values: seq<Value>)
    requires InfoFits(types, fields) && Values(fields, types, values)
    ensures HasType(StructOf(types, 0), ClassValue(fields, values)) && Sound(StructOf(types, 0))
  {
    var at, s, v := Extended(fields, |fields|), StructOf(types, 0), ClassValue(fields, values);
    BlockSize(fields, values, |fields|);
    forall k: nat | k < |at|
      ensures HasType(Part(s.ext, k), v.items[k]) && Sound(s.ext[k])
    {
      ExtendedFit(fields, types, k);
      DecodeIsSound(fields[at[k]].code, types, 0);
    }
    hide HasType, Sound;
    ClassHasTypeSteps(s, v);
  }

  lemma {:induction false} ClassHasTypeSteps(s: Schema, v: Value)
    requires s.Struct? && Fits(s, v) && (s.equivalent ==> s.ext == [])
    requires forall k: nat :: k < |s.ext| ==> HasType(Part(s.ext, k), v.items[k]) && Sound(s.ext[k])
    ensures HasType(s, v) && Sound(s)
  {
  }

  // ---------------------------------------------------------------------------------------------
  // Writing

  /** The block of a class, field by field, each at its offset. */
  method WriteBlock(fields: seq<Field>, values: seq<Value>, total: nat) returns (buf: array<Byte>)
    requires |fields| == |values| && total == Before(fields, |fields|)
    requires forall j: nat :: j < |fields| ==> LaidOut(fields, j)
    requires forall j: nat :: j < |fields| && !fields[j].extended ==>
               values[j].Raw? && |values[j].bytes| == fields[j].dataSize
    ensures fresh(buf) && buf[..] == BlockOf(fields, values, |fields|)
  {
    hide Before, BlockOf;
    buf := new Byte[total](_ => 0);
    var j := 0;
    BlockNext(fields, values, 0);
    while j < |fields|
      invariant 0 <= j <= |fields| && Before(fields, j) <= total == buf.Length
      invariant buf[..Before(fields, j)] == BlockOf(fields, values, j)
    {
      BeforeGrows(fields, j + 1, |fields|);
      BlockNext(fields, values, j + 1);
      if !fields[j].extended {
        assert LaidOut(fields, j);
        ghost var left := buf[..Before(fields, j)];
        WriteAt(buf, fields[j].offset, values[j].bytes);
        assert buf[..Before(fields, j + 1)] == left + values[j].bytes;
      }
      j := j + 1;
    }
    assert buf[..] == buf[..total];
  }

  lemma BlockNext(fields: seq<Field>, values: seq<Value>, n: nat)
    requires n <= |fields| == |values|
    requires forall j: nat :: j < |fields| && !fields[j].extended ==> values[j].Raw?
    ensures Before(fields, 0) == 0 && BlockOf(fields, values, 0) == []
    ensures n > 0 ==>
              && Before(fields, n) == Before(fields, n - 1)
                 + (if fields[n - 1].extended then 0 else fields[n - 1].dataSize)
              && BlockOf(fields, values, n) == BlockOf(fields, values, n - 1)
                 + (if fields[n - 1].extended then [] else values[n - 1].bytes)
  {
  }

  method WriteAt(buf: array<Byte>, offset: nat, bytes: seq<Byte>)
    requires offset + |bytes| <= buf.Length
    modifies buf
    ensures buf[..offset] == old(buf[..offset])
    ensures buf[offset..offset + |bytes|] == bytes
    ensures buf[offset + |bytes|..] == old(buf[offset + |bytes|..])
  {
    for i := 0 to |bytes|
      invariant buf[..offset] == old(buf[..offset])
      invariant buf[offset..offset + i] == bytes[..i]
      invariant buf[offset + |bytes|..] == old(buf[offset + |bytes|..])
    {
      buf[offset + i] := bytes[i];
    }
  }

  /** Generated `write` of a class. */
  method WriteClass(out: TypeOutput, types: TypeCode, values: seq<Value>)
    requires types.IsCompiled() && InfoFits(types.Info(), types.fields)
    requires Values(types.fields, types.Info(), values)
    modifies out
    ensures var s, v := StructOf(types.Info(), 0), ClassValue(types.fields, values);
            HasType(s, v) && out.data == old(out.data) + Encode(s, v)
  {
    hide Before, BlockOf, Encode, EncodeItems, HasType, StructOf, Sound, ClassValue;
    var fields, info := types.fields, types.Info();
    ClassHasType(fields, info, values);
    var s, v := StructOf(info, 0), ClassValue(fields, values);
    ClassEncoding(s, v, out.data);
    var buf := WriteBlock(fields, values, types.total);
    out.Write(buf[..]);
    WriteItems(out, s.ext, v);
    ClassValueBlock(fields, values);
  }

  lemma ClassValueBlock(fields: seq<Field>, values: seq<Value>)
    requires |fields| == |values|
    requires forall j: nat :: j < |fields| && !fields[j].extended ==> values[j].Raw?
    ensures ClassValue(fields, values).Fields? && ClassValue(fields, values).block == BlockOf(fields, values, |fields|)
  {
  }

  /** The extended fields, one after the other. */
  method WriteItems(out: TypeOutput, parts: seq<Schema>, v: Value)
    requires forall k: nat :: k < |ItemsOf(v)| ==> HasType(Part(parts, k), ItemsOf(v)[k])
    modifies out
    ensures out.data == old(out.data) + EncodeItems(parts, v, 0)
  {
    hide Encode, EncodeItems, HasType;
    var k := 0;
    while k < |ItemsOf(v)|
      invariant 0 <= k <= |ItemsOf(v)|
      invariant out.data + EncodeItems(parts, v, k) == old(out.data) + EncodeItems(parts, v, 0)
    {
      ItemsNext(parts, v, k);
      var bytes := Encode(Part(parts, k), ItemsOf(v)[k]);
      assert out.data + (bytes + EncodeItems(parts, v, k + 1)) == out.data + bytes + EncodeItems(parts, v, k + 1);
      out.Write(bytes);
      k := k + 1;
    }
    ItemsNext(parts, v, k);
    assert out.data + [] == out.data;
  }

  lemma {:induction false} ClassEncoding(s: Schema, v: Value, before: seq<Byte>)
    requires s.Struct? && HasType(s, v)
    ensures v.Fields? && forall k: nat :: k < |ItemsOf(v)| ==> HasType(Part(s.ext, k), ItemsOf(v)[k])
    ensures before + v.block + EncodeItems(s.ext, v, 0) == before + Encode(s, v)
  {
    hide EncodeItems;
    assert Parts(s, v) == s.ext;
    assert before + v.block + EncodeItems(s.ext, v, 0) == before + (v.block + EncodeItems(s.ext, v, 0));
  }

  lemma ItemsNext(parts: seq<Schema>, v: Value, k: nat)
    requires k <= |ItemsOf(v)|
    requires forall j: nat :: k <= j < |ItemsOf(v)| ==> HasType(Part(parts, j), ItemsOf(v)[j])
    ensures EncodeItems(parts, v, k) ==
              if k == |ItemsOf(v)| then [] else Encode(Part(parts, k), ItemsOf(v)[k]) + EncodeItems(parts, v, k + 1)
  {
  }

  // ---------------------------------------------------------------------------------------------
  // Reading

  /** The bytes each of the items from the i-th on takes, as far as they can be read. */
  function Pieces(parts: seq<Schema>, i: nat, data: seq<Byte>, depth: nat): seq<seq<Byte>>
    requires i <= |parts|
    decreases |parts| - i
  {
    if i == |parts| then []
    else
      var r := Copy(parts[i], data, depth);
      if !r.Done? then [] else [data[..r.value.size]] + Pieces(parts, i + 1, data[r.value.size..], depth)
  }

  /** What the block gives a member that has a primitive field as its source. */
  function FromBlock(fields: seq<Field>, source: Option<nat>, block: seq<Byte>, member: Option<Slot>): Option<Slot> {
    if source.Some? && source.value < |fields|
       && fields[source.value].offset + fields[source.value].dataSize <= |block| then
      var f := fields[source.value];
      Some(Slot(f.code, block[f.offset..f.offset + f.dataSize]))
    else member
  }

  /** The members once the block has been read. */
  function AfterBlock(
      fields: seq<Field>, fieldMap: seq<Option<nat>>, native: seq<Field>, block: seq<Byte>,
      members: seq<Option<Slot>>): (r: seq<Option<Slot>>)
    requires |fieldMap| == |native| == |members|
    ensures |r| == |members|
  {
    seq(|members|, i requires 0 <= i < |members| =>
      if native[i].extended then members[i] else FromBlock(fields, fieldMap[i], block, members[i]))
  }

  /** The members once the first n extended fields have been read. */
  function AfterPieces(
      fields: seq<Field>, at: seq<nat>, pieces: seq<seq<Byte>>, members: seq<Option<Slot>>, n: nat)
    : (r: seq<Option<Slot>>)
    requires n <= |at| && n <= |pieces| && forall k: nat :: k < |at| ==> at[k] < |fields|
    ensures |r| == |members|
  {
    if n == 0 then members
    else Assign(AfterPieces(fields, at, pieces, members, n - 1), fields[at[n - 1]], pieces[n - 1])
  }

  /** One extended field goes to its native field, if there is one. */
  function Assign(members: seq<Option<Slot>>, f: Field, piece: seq<Byte>): (r: seq<Option<Slot>>)
    ensures |r| == |members|
  {
    if 0 <= f.nativeIndex < |members| then members[f.nativeIndex := Some(Slot(f.code, piece))] else members
  }

  lemma {:induction false} AfterPiecesPrefix(
      fields: seq<Field>, at: seq<nat>, pieces: seq<seq<Byte>>, piece: seq<Byte>, members: seq<Option<Slot>>, n: nat)
    requires n <= |at| && n <= |pieces| && forall k: nat :: k < |at| ==> at[k] < |fields|
    ensures AfterPieces(fields, at, pieces + [piece], members, n) == AfterPieces(fields, at, pieces, members, n)
  {
    if n > 0 {
      AfterPiecesPrefix(fields, at, pieces, piece, members, n - 1);
      assert (pieces + [piece])[n - 1] == pieces[n - 1];
    }
  }

  lemma AfterPiecesNext(
      fields: seq<Field>, at: seq<nat>, pieces: seq<seq<Byte>>, piece: seq<Byte>, members: seq<Option<Slot>>)
    requires |pieces| < |at| && forall k: nat :: k < |at| ==> at[k] < |fields|
    ensures AfterPieces(fields, at, pieces + [piece], members, |pieces| + 1)
            == Assign(AfterPieces(fields, at, pieces, members, |pieces|), fields[at[|pieces|]], piece)
  {
    AfterPiecesPrefix(fields, at, pieces, piece, members, |pieces|);
  }

  lemma PiecesNext(parts: seq<Schema>, i: nat, data: seq<Byte>, depth: nat)
    requires i <= |parts|
    ensures Pieces(parts, i, data, depth) ==
              if i == |parts| then []
              else
                var r := Copy(parts[i], data, depth);
                if !r.Done? then [] else [data[..r.value.size]] + Pieces(parts, i + 1, data[r.value.size..], depth)
  {
  }

  /** The extended fields: each is read into its member, or skipped. */
  method ReadExtended(input: TypeInput, fields: seq<Field>, types: TypeInfo, at: seq<nat>, value: NativeValue)
    returns (status: Status)
    requires input.Valid() && InfoFits(types, fields) && at == Extended(fields, |fields|)
    requires input.depth <= MAX_RECURSION
    modifies input, value
    ensures var parts, data := StructOf(types, 0).ext, old(input.Rest());
            && Moved(input, null, CopyItems(parts, 0, |parts|, data, old(input.depth)), status)
            && |value.members| == |old(value.members)|
            && (status.Fine? ==>
                  var pieces := Pieces(parts, 0, data, old(input.depth));
                  && |pieces| == |at|
                  && value.members == AfterPieces(fields, at, pieces, old(value.members), |at|))
  {
    hide Copy, CopyItems, Chain, Pieces, AfterPieces, Assign, Extended, Before, StructOf, WellFormed, Decode;
    ghost var parts, depth := StructOf(types, 0).ext, input.depth;
    ghost var all := CopyItems(parts, 0, |parts|, input.Rest(), depth);
    ghost var allPieces := Pieces(parts, 0, input.Rest(), depth);
    ghost var done, pieces := Copied(0, []), [];
    ChainNothing(all);
    NoPieces(fields, at, value.members);
    assert pieces + allPieces == allPieces;
    var k := 0;
    while k < |at|
      invariant 0 <= k == |pieces| <= |at| == |parts| && input.Valid() && input.depth == depth
      invariant all == Chain(done, CopyItems(parts, k, |parts|, input.Rest(), depth))
      invariant done.size <= |old(input.Rest())| && input.pos == old(input.pos) + done.size
      invariant pieces + Pieces(parts, k, input.Rest(), depth) == allPieces
      invariant value.members == AfterPieces(fields, at, pieces, old(value.members), k)
    {
      ghost var here := input.Rest();
      CopyOneMore(done, parts, k, |parts|, here, depth);
      PiecesNext(parts, k, here, depth);
      ExtendedFit(fields, types, k);
      var f, piece := fields[at[k]], [];
      status, piece := ReadPiece(input, types, f.code);
      if !status.Fine? {
        return;
      }
      ghost var first := Copy(parts[k], here, depth).value;
      AfterPiecesNext(fields, at, pieces, piece, old(value.members));
      value.members := Assign(value.members, f, piece);
      assert pieces + ([piece] + Pieces(parts, k + 1, input.Rest(), depth))
          == pieces + [piece] + Pieces(parts, k + 1, input.Rest(), depth);
      pieces := pieces + [piece];
      done := Copied(done.size + first.size, done.out + first.out);
      k := k + 1;
    }
    CopyNoMore(done, parts, k, input.Rest(), depth);
    PiecesNext(parts, k, input.Rest(), depth);
    assert pieces + [] == pieces;
    status := Fine;
  }

  /** A field, with the bytes it took. */
  method ReadPiece(input: TypeInput, types: TypeInfo, code: seq<Cell>) returns (status: Status, piece: seq<Byte>)
    requires input.Valid() && Compiled(types) && WellFormed(code, types, 0)
    modifies input
    ensures var data := old(input.Rest());
            var r := Copy(Decode(code, types, 0), data, old(input.depth));
            && Moved(input, null, r, status)
            && (status.Fine? ==> piece == data[..r.value.size] && input.Rest() == data[r.value.size..])
  {
    hide Copy, Decode, WellFormed, Compiled;
    var start := input.pos;
    ghost var data := input.Rest();
    status := CopyValue(input, null, types, code, 0);
    piece := [];
    if status.Fine? {
      piece := input.data[start..input.pos];
      assert piece == data[..input.pos - start];
    }
  }

  lemma NoPieces(fields: seq<Field>, at: seq<nat>, members: seq<Option<Slot>>)
    requires forall k: nat :: k < |at| ==> at[k] < |fields|
    ensures AfterPieces(fields, at, [], members, 0) == members
  {
  }

  /** The primitive members, from the block. */
  method ReadPrimitive(
      fields: seq<Field>, fieldMap: seq<Option<nat>>, native: seq<Field>, block: seq<Byte>, value: NativeValue)
    requires |fieldMap| == |native| == |value.members|
    modifies value
    ensures value.members == AfterBlock(fields, fieldMap, native, block, old(value.members))
  {
    var i := 0;
    while i < |native|
      invariant 0 <= i <= |native| == |value.members|
      invariant forall k: nat :: k < |native| ==>
                  value.members[k] == if k < i && !native[k].extended then
                                        FromBlock(fields, fieldMap[k], block, old(value.members)[k])
                                      else old(value.members)[k]
    {
      if !native[i].extended {
        value.members := value.members[i := FromBlock(fields, fieldMap[i], block, value.members[i])];
      }
      i := i + 1;
    }
  }

  /** The members after reading a value of the class: its block, then its extended fields. */
  function Received(
      fields: seq<Field>, matched: bool, fieldMap: seq<Option<nat>>, native: seq<Field>,
      block: seq<Byte>, pieces: seq<seq<Byte>>, members: seq<Option<Slot>>): (r: seq<Option<Slot>>)
    requires matched ==> |fieldMap| == |native| == |members|
    requires |pieces| == |Extended(fields, |fields|)|
    ensures |r| == |members|
  {
    var m := if matched then AfterBlock(fields, fieldMap, native, block, members) else members;
    AfterPieces(fields, Extended(fields, |fields|), pieces, m, |pieces|)
  }

  /** Generated `read` of a class. */
  method ReadClass(input: TypeInput, types: TypeCode, native: seq<Field>, value: NativeValue) returns (status: Status)
    requires input.Valid() && types.IsCompiled() && InfoFits(types.Info(), types.fields)
    requires types.isMatched ==> |types.fieldMap| == |native| == |value.members|
    modifies input, value
    ensures Moved(input, null, Copy(StructOf(types.Info(), 0), old(input.Rest()), old(input.depth)), status)
    ensures status.Fine? ==>
              var info, data := types.Info(), old(input.Rest());
              && info.total <= |data|
              && var pieces := Pieces(StructOf(info, 0).ext, 0, data[info.total..], old(input.depth) + 1);
                 && |pieces| == |info.ext|
                 && value.members == Received(types.fields, types.isMatched, types.fieldMap, native,
                                              data[..info.total], pieces, old(value.members))
  {
    hide Copy, CopyItems, Pieces, AfterPieces, AfterBlock, Extended, Before, WellFormed, StructOf, Compiled;
    var fields, info := types.fields, types.Info();
    ghost var data := input.Rest();
    CopyClass(StructOf(info, 0), data, input.depth);
    input.depth := input.depth + 1;
    if input.depth > MAX_RECURSION {
      input.depth := input.depth - 1;
      return Threw;
    }
    var ok, block := input.Read(types.total);
    if !ok {
      input.depth := input.depth - 1;
      return Threw;
    }
    if types.isMatched {
      ReadPrimitive(fields, types.fieldMap, native, block, value);
    }
    status := ReadExtended(input, fields, info, types.extFields, value);
    input.depth := input.depth - 1;
  }

  /** Copying a class. */
  lemma {:induction false} CopyClass(s: Schema, data: seq<Byte>, depth: nat)
    requires s.Struct?
    ensures Copy(s, data, depth) ==
              if depth + 1 > MAX_RECURSION || |data| < s.total then Failed
              else Chain(Copied(s.total, data[..s.total]), CopyItems(s.ext, 0, |s.ext|, data[s.total..], depth + 1))
  {
    hide CopyItems, Chain;
    if depth + 1 <= MAX_RECURSION {
      CopyInsideFails(s, data, depth + 1);
      assert Copy(s, data, depth) == CopyInside(s, data, depth + 1);
      if |data| >= s.total {
        var h := ReadHead(s, data).value;
        assert CopyInside(s, data, depth + 1) == CopyBody(h, data[h.size..], depth + 1);
      }
    }
  }

  // ---------------------------------------------------------------------------------------------
  // What comes through

  /** The last extended field, among the first n, that is read into native field i. */
  function LastInto(fields: seq<Field>, i: nat, n: nat): (r: Option<nat>)
    requires n <= |fields|
    ensures r.Some? ==> r.value < n && fields[r.value].extended && fields[r.value].nativeIndex == i
    ensures r.Some? ==> forall j: nat :: r.value < j < n && fields[j].extended ==> fields[j].nativeIndex != i
    ensures r.None? ==> forall j: nat :: j < n && fields[j].extended ==> fields[j].nativeIndex != i
  {
    if n == 0 then None
    else if fields[n - 1].extended && fields[n - 1].nativeIndex == i then Some(n - 1)
    else LastInto(fields, i, n - 1)
  }

  /** Which of the fields that were sent ends up in native field i. */
  function Source(fields: seq<Field>, fieldMap: seq<Option<nat>>, native: seq<Field>, i: nat): Option<nat>
    requires i < |native| == |fieldMap|
  {
    if native[i].extended then LastInto(fields, i, |fields|) else fieldMap[i]
  }

  /** The pieces of an encoded value are the encodings of its items. */
  lemma {:induction false} PiecesOfEncoding(parts: seq<Schema>, v: Value, i: nat, rest: seq<Byte>, depth: nat)
    requires i <= |ItemsOf(v)| == |parts|
    requires forall k: nat :: i <= k < |parts| ==> HasType(Part(parts, k), ItemsOf(v)[k])
    requires forall k: nat :: i <= k < |parts| ==> Sound(Part(parts, k))
    requires depth + ItemNesting(parts, v, i) <= MAX_RECURSION
    ensures var pieces := Pieces(parts, i, EncodeItems(parts, v, i) + rest, depth);
            && |pieces| == |parts| - i
            && forall k: nat :: i <= k < |parts| ==> pieces[k - i] == Encode(Part(parts, k), ItemsOf(v)[k])
    decreases |parts| - i
  {
    hide Copy, HasType, Sound, Nesting, Encode, EncodeItems, Pieces, Chain;
    var data := EncodeItems(parts, v, i) + rest;
    ItemsNext(parts, v, i);
    PiecesNext(parts, i, data, depth);
    if i < |parts| {
      assert ItemNesting(parts, v, i) == Max(Nesting(parts[i], ItemsOf(v)[i]), ItemNesting(parts, v, i + 1));
      hide ItemNesting;
      var first, more := Encode(parts[i], ItemsOf(v)[i]), EncodeItems(parts, v, i + 1) + rest;
      assert data == first + more;
      CopyEncoded(parts[i], ItemsOf(v)[i], more, depth);
      assert data[..|first|] == first && data[|first|..] == more;
      PiecesOfEncoding(parts, v, i + 1, rest, depth);
      assert Pieces(parts, i, data, depth) == [first] + Pieces(parts, i + 1, more, depth);
      FirstPiece(parts, v, i, Pieces(parts, i + 1, more, depth));
    }
  }

  lemma FirstPiece(parts: seq<Schema>, v: Value, i: nat, more: seq<seq<Byte>>)
    requires i < |ItemsOf(v)| == |parts| && |more| == |parts| - (i + 1)
    requires forall k: nat :: i <= k < |parts| ==> HasType(Part(parts, k), ItemsOf(v)[k])
    requires forall k: nat :: i + 1 <= k < |parts| ==> more[k - (i + 1)] == Encode(Part(parts, k), ItemsOf(v)[k])
    ensures var pieces := [Encode(Part(parts, i), ItemsOf(v)[i])] + more;
            forall k: nat :: i <= k < |parts| ==> pieces[k - i] == Encode(Part(parts, k), ItemsOf(v)[k])
  {
    hide HasType, Encode;
    var pieces := [Encode(Part(parts, i), ItemsOf(v)[i])] + more;
    forall k: nat | i <= k < |parts|
      ensures pieces[k - i] == Encode(Part(parts, k), ItemsOf(v)[k])
    {
      assert k > i ==> pieces[k - i] == more[k - (i + 1)];
    }
  }

  /** A member gets the last piece that is meant for it. */
  lemma {:induction false} AssignedLast(
      fields: seq<Field>, at: seq<nat>, pieces: seq<seq<Byte>>, members: seq<Option<Slot>>, n: nat, i: nat, j: nat)
    requires n <= |at| && n <= |pieces| && forall k: nat :: k < |at| ==> at[k] < |fields|
    requires i < |members| && j < n && fields[at[j]].nativeIndex == i
    requires forall k: nat :: j < k < n ==> fields[at[k]].nativeIndex != i
    ensures AfterPieces(fields, at, pieces, members, n)[i] == Some(Slot(fields[at[j]].code, pieces[j]))
  {
    if j < n - 1 {
      AssignedLast(fields, at, pieces, members, n - 1, i, j);
    }
  }

  lemma {:induction false} NotAssigned(
      fields: seq<Field>, at: seq<nat>, pieces: seq<seq<Byte>>, members: seq<Option<Slot>>, n: nat, i: nat)
    requires n <= |at| && n <= |pieces| && forall k: nat :: k < |at| ==> at[k] < |fields|
    requires i < |members|
    requires forall k: nat :: k < n ==> fields[at[k]].nativeIndex != i
    ensures AfterPieces(fields, at, pieces, members, n)[i] == members[i]
  {
    if n > 0 {
      NotAssigned(fields, at, pieces, members, n - 1, i);
    }
  }

  /** The links `match` makes: to primitive fields of the block, and to extended native fields. */
  predicate Linked(fields: seq<Field>, fieldMap: seq<Option<nat>>, native: seq<Field>) {
    && |fieldMap| == |native|
    && (forall i: nat :: i < |native| && fieldMap[i].Some? ==>
          fieldMap[i].value < |fields| && !fields[fieldMap[i].value].extended)
    && (forall j: nat :: j < |fields| && fields[j].extended && fields[j].nativeIndex >= 0 ==>
          fields[j].nativeIndex < |native| && native[fields[j].nativeIndex].extended)
  }

  /** The extended field j is the rank-th one. */
  lemma {:induction false} RankOf(fields: seq<Field>, j: nat) returns (rank: nat)
    requires j < |fields| && fields[j].extended
    ensures var at := Extended(fields, |fields|);
            rank < |at| && at[rank] == j && forall k: nat :: rank < k < |at| ==> at[k] > j
  {
    var at := Extended(fields, |fields|);
    assert j in at;
    rank :| rank < |at| && at[rank] == j;
  }

  /** Member i, given what the block and the pieces hold. */
  lemma {:induction false} MemberReceived(
      fields: seq<Field>, types: TypeInfo, fieldMap: seq<Option<nat>>, native: seq<Field>, values: seq<Value>,
      pieces: seq<seq<Byte>>, members: seq<Option<Slot>>, i: nat)
    requires InfoFits(types, fields) && Values(fields, types, values) && Linked(fields, fieldMap, native)
    requires forall j: nat :: j < |fields| ==> LaidOut(fields, j)
    requires |members| == |native| && i < |members|
    requires var at := Extended(fields, |fields|);
             |pieces| == |at| && forall k: nat :: k < |at| ==> pieces[k] == FieldBytes(fields, types, values, at[k])
    ensures var at := Extended(fields, |fields|);
            var m := AfterBlock(fields, fieldMap, native, BlockOf(fields, values, |fields|), members);
            var source := Source(fields, fieldMap, native, i);
            AfterPieces(fields, at, pieces, m, |at|)[i] ==
              if source.None? then members[i]
              else Some(Slot(fields[source.value].code, FieldBytes(fields, types, values, source.value)))
  {
    hide Extended, Before, BlockOf, AfterPieces, LastInto, WellFormed, HasType;
    var at := Extended(fields, |fields|);
    var m := AfterBlock(fields, fieldMap, native, BlockOf(fields, values, |fields|), members);
    var source := Source(fields, fieldMap, native, i);
    if native[i].extended && source.Some? {
      var rank := RankOf(fields, source.value);
      AssignedLast(fields, at, pieces, m, |at|, i, rank);
    } else {
      NotAssigned(fields, at, pieces, m, |at|, i);
      if source.Some? {
        BlockAt(fields, values, source.value, |fields|);
        assert LaidOut(fields, source.value);
        assert m[i] == FromBlock(fields, source, BlockOf(fields, values, |fields|), members[i]);
      }
    }
  }

  /** Each member got what its source was given, or is what it was. */
  predicate ComesThrough(
      fields: seq<Field>, types: TypeInfo, fieldMap: seq<Option<nat>>, native: seq<Field>, values: seq<Value>,
      members: seq<Option<Slot>>, result: seq<Option<Slot>>)
    requires InfoFits(types, fields) && Values(fields, types, values) && Linked(fields, fieldMap, native)
  {
    && |members| == |result| == |native|
    && forall i: nat :: i < |native| ==>
         var source := Source(fields, fieldMap, native, i);
         result[i] ==
           if source.None? then members[i]
           else Some(Slot(fields[source.value].code, FieldBytes(fields, types, values, source.value)))
  }

  /**
   A value written under one version of a type and read into another: the stream is left exactly at
   the end of the value, each member gets what its source was given, and members without a source
   keep their defaults. The only way to fail is the recursion limit.
   */
  lemma {:induction false} SchemaEvolution(
      fields: seq<Field>, types: TypeInfo, fieldMap: seq<Option<nat>>, native: seq<Field>, values: seq<Value>,
      rest: seq<Byte>, depth: nat, members: seq<Option<Slot>>)
    requires InfoFits(types, fields) && Values(fields, types, values) && Linked(fields, fieldMap, native)
    requires forall j: nat :: j < |fields| ==> LaidOut(fields, j)
    requires |members| == |native|
    ensures var s, v := StructOf(types, 0), ClassValue(fields, values);
            && HasType(s, v)
            && Copy(s, Encode(s, v) + rest, depth) == Expected(Encode(s, v), depth + Nesting(s, v))
            && (depth + Nesting(s, v) <= MAX_RECURSION ==>
                  var data := Encode(s, v) + rest;
                  && |data| >= types.total
                  && var pieces := Pieces(s.ext, 0, data[types.total..], depth + 1);
                     && |pieces| == |types.ext|
                     && ComesThrough(fields, types, fieldMap, native, values, members,
                                     Received(fields, true, fieldMap, native, data[..types.total], pieces, members)))
  {
    hide Extended, Before, BlockOf, AfterPieces, AfterBlock, LastInto, WellFormed, HasType, Copy, Encode, EncodeItems,
      Pieces, StructOf, ItemNesting, Nesting, Sound, Source, Linked, LaidOut, Decode, Compiled, ComesThrough, Received;
    var s, v := StructOf(types, 0), ClassValue(fields, values);
    ClassHasType(fields, types, values);
    CopyEncoded(s, v, rest, depth);
    if depth + Nesting(s, v) <= MAX_RECURSION {
      ClassSplit(s, v, rest);
      PiecesOfEncoding(s.ext, v, 0, rest, depth + 1);
      var pieces := Pieces(s.ext, 0, EncodeItems(s.ext, v, 0) + rest, depth + 1);
      PiecesAreFields(fields, types, values, pieces);
      AllReceived(fields, types, fieldMap, native, values, pieces, members);
    }
  }

  lemma {:induction false} PiecesAreFields(
      fields: seq<Field>, types: TypeInfo, values: seq<Value>, pieces: seq<seq<Byte>>)
    requires InfoFits(types, fields) && Values(fields, types, values)
    requires var s, v := StructOf(types, 0), ClassValue(fields, values);
             && |pieces| == |s.ext| == |ItemsOf(v)|
             && forall k: nat :: k < |s.ext| ==>
                  HasType(Part(s.ext, k), ItemsOf(v)[k]) && pieces[k] == Encode(Part(s.ext, k), ItemsOf(v)[k])
    ensures var at := Extended(fields, |fields|);
            |pieces| == |at| && forall k: nat :: k < |at| ==> pieces[k] == FieldBytes(fields, types, values, at[k])
  {
    hide Extended, Before, BlockOf, WellFormed, HasType, Encode, Decode, Compiled;
    forall k: nat | k < |Extended(fields, |fields|)|
      ensures pieces[k] == FieldBytes(fields, types, values, Extended(fields, |fields|)[k])
    {
      ExtendedFit(fields, types, k);
    }
  }

  lemma {:induction false} AllReceived(
      fields: seq<Field>, types: TypeInfo, fieldMap: seq<Option<nat>>, native: seq<Field>, values: seq<Value>,
      pieces: seq<seq<Byte>>, members: seq<Option<Slot>>)
    requires InfoFits(types, fields) && Values(fields, types, values) && Linked(fields, fieldMap, native)
    requires forall j: nat :: j < |fields| ==> LaidOut(fields, j)
    requires |members| == |native|
    requires var at := Extended(fields, |fields|);
             |pieces| == |at| && forall k: nat :: k < |at| ==> pieces[k] == FieldBytes(fields, types, values, at[k])
    ensures ComesThrough(
              fields, types, fieldMap, native, values, members,
              Received(fields, true, fieldMap, native, BlockOf(fields, values, |fields|), pieces, members))
  {
    hide Extended, Before, BlockOf, AfterPieces, AfterBlock, FieldBytes, WellFormed, HasType, Compiled;
    forall i: nat | i < |native|
      ensures var source := Source(fields, fieldMap, native, i);
              Received(fields, true, fieldMap, native, BlockOf(fields, values, |fields|), pieces, members)[i] ==
                if source.None? then members[i]
                else Some(Slot(fields[source.value].code, FieldBytes(fields, types, values, source.value)))
    {
      MemberReceived(fields, types, fieldMap, native, values, pieces, members, i);
    }
  }

  lemma {:induction false} ClassSplit(s: Schema, v: Value, rest: seq<Byte>)
    requires s.Struct? && HasType(s, v) && Sound(s)
    ensures forall k: nat :: k < |s.ext| ==> HasType(Part(s.ext, k), ItemsOf(v)[k]) && Sound(Part(s.ext, k))
    ensures v.Fields? && |v.items| == |s.ext| && |v.block| == s.total && Nesting(s, v) == 1 + ItemNesting(s.ext, v, 0)
    ensures var data := Encode(s, v) + rest;
            |data| >= s.total && data[..s.total] == v.block && data[s.total..] == EncodeItems(s.ext, v, 0) + rest
  {
    hide EncodeItems, ItemNesting;
    assert Parts(s, v) == s.ext;
    var data := Encode(s, v) + rest;
    assert data == v.block + (EncodeItems(s.ext, v, 0) + rest);
  }

  // ---------------------------------------------------------------------------------------------
  // Sources by name

  /** No two fields of one kind have the same name. */
  predicate DistinctNames(fields: seq<Field>) {
    forall i, j :: 0 <= i < j < |fields| && fields[i].extended == fields[j].extended ==>
      fields[i].name != fields[j].name
  }

  /**
   Field j is meant for native field i: it is of the same kind and has its name, or an alias of it
   that is not taken. For primitive fields an alias is taken if a field that was sent has the native
   name; for extended ones it is taken if a native field has the name that was sent.
   */
  predicate Feeds(fields: seq<Field>, native: seq<Field>, aliases: Aliases, j: nat, i: nat)
    requires j < |fields| && i < |native|
  {
    && fields[j].extended == native[i].extended
    && (fields[j].name == native[i].name
        || (Partner(aliases, fields[j].name) == Some(native[i].name)
            && (if fields[j].extended then LastNamed(native, true, fields[j].name, |native|).None?
                else LastNamed(fields, false, native[i].name, |fields|).None?)))
  }

  /** The source of a native field is the last field that is meant for it. */
  lemma {:induction false} SourceIsLastFed(
      sent: seq<Field>, fields: seq<Field>, native: seq<Field>, aliases: Aliases, i: nat)
    requires Paired(aliases) && DistinctNames(native)
    requires Relinked(sent, fields, native, aliases) && i < |native|
    ensures var source := Source(fields, FieldMap(sent, native, aliases), native, i);
            && (source.Some? ==>
                  && source.value < |sent| && Feeds(sent, native, aliases, source.value, i)
                  && forall j: nat :: source.value < j < |sent| ==> !Feeds(sent, native, aliases, j, i))
            && (source.None? ==> forall j: nat :: j < |sent| ==> !Feeds(sent, native, aliases, j, i))
  {
    hide Paired, Partner, LastNamed, Link, Named;
    if native[i].extended {
      forall j: nat | j < |sent| && sent[j].extended
        ensures fields[j].nativeIndex == i <==> Feeds(sent, native, aliases, j, i)
      {
        ExtendedFeeds(sent, native, aliases, j, i);
      }
    } else {
      PrimitiveFeeds(sent, native, aliases, i);
    }
  }

  lemma {:induction false} ExtendedFeeds(sent: seq<Field>, native: seq<Field>, aliases: Aliases, j: nat, i: nat)
    requires Paired(aliases) && DistinctNames(native)
    requires j < |sent| && i < |native| && sent[j].extended && native[i].extended
    ensures NativeIndex(native, aliases, sent[j].name) == i <==> Feeds(sent, native, aliases, j, i)
  {
    hide Paired, Link, Named;
    LinkedByName(native, true, aliases, sent[j].name);
  }

  lemma {:induction false} PrimitiveFeeds(sent: seq<Field>, native: seq<Field>, aliases: Aliases, i: nat)
    requires Paired(aliases) && i < |native| && !native[i].extended
    ensures var source := FieldMap(sent, native, aliases)[i];
            && (source.Some? ==> source.value < |sent| && Feeds(sent, native, aliases, source.value, i))
            && forall j: nat :: j < |sent| && Feeds(sent, native, aliases, j, i) ==> source.Some? && j <= source.value
  {
    hide Paired, Link, Named;
    var name := native[i].name;
    LinkedByName(sent, false, aliases, name);
    var partner := Partner(aliases, name);
    if partner.Some? {
      PartnerOfPartner(aliases, name, partner.value);
    }
    forall j: nat | j < |sent| && Feeds(sent, native, aliases, j, i)
      ensures var source := FieldMap(sent, native, aliases)[i]; source.Some? && j <= source.value
    {
      if sent[j].name != name {
        PartnerOfPartner(aliases, sent[j].name, name);
      }
    }
  }

  /** What `match` links is linked as reading needs it. */
  lemma {:induction false} MatchLinks(sent: seq<Field>, fields: seq<Field>, native: seq<Field>, aliases: Aliases)
    requires Relinked(sent, fields, native, aliases)
    ensures Linked(fields, FieldMap(sent, native, aliases), native)
  {
    var primitive, extended := Named(sent, false, |sent|), Named(native, true, |native|);
    forall i: nat | i < |native| && FieldMap(sent, native, aliases)[i].Some?
      ensures var source := FieldMap(sent, native, aliases)[i].value; source < |fields| && !fields[source].extended
    {
      LinkKeeps(primitive, aliases, native[i].name);
      var name :| name in primitive && primitive[name] == FieldMap(sent, native, aliases)[i].value;
      NamedIsLast(sent, false, |sent|, name);
    }
    forall j: nat | j < |fields| && fields[j].extended && fields[j].nativeIndex >= 0
      ensures fields[j].nativeIndex < |native| && native[fields[j].nativeIndex].extended
    {
      LinkKeeps(extended, aliases, fields[j].name);
      var name :| name in extended && extended[name] == fields[j].nativeIndex;
      NamedIsLast(native, true, |native|, name);
    }
  }

  /** A compiled and matched type is one the interpreters can work with. */
  lemma {:induction false} CompiledDescribes(types: TypeCode)
    requires types.IsCompiled() && (types.isEquivalent ==> types.extFields == [])
    requires forall d :: d in types.depends ==> d.TypeInfo? && Compiled(d)
    ensures InfoFits(types.Info(), types.fields)
  {
    hide Extended, Before;
    var info := types.Info();
    forall e | e in info.ext
      ensures WellFormed(e, info, 0)
    {
      WellFormedInScope(e, Scope(types.depends), info, 0);
    }
  }
}

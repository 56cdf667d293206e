/**
 The index blocks of a recording on the wire: a `RecordIndex` is a block of two positions and a list
 of entries, so it takes the same number of bytes whatever the positions and times in it are.
 */
module IndexBlocks {
  import opened Bytes
  import opened ByteCode
  import opened Schemas
  import opened Wire
  import opened CopySpec
  import opened CopyLaws
  import opened Recordings

  /** A 64-bit integer. */
  function Int64(n: int): (b: seq<Byte>)
    ensures |b| == 8
  {
    LittleEndian(n % 0x1_0000_0000_0000_0000, 8)
  }

  /** `record_index_entry_t`: a position and a time, both in the block. */
  const ENTRY_TYPE := TypeInfo(16, true, [], [])

  /** `RecordIndex`: the previous and the next block, and the index as an extended field. */
  const INDEX_TYPE := TypeInfo(16, false, [[CODE_LIST, CODE_STRUCT, 0]], [ENTRY_TYPE])

  const ENTRY := Struct(0, 16, true, [])
  const INDEX := Struct(0, 16, false, [Lst(ENTRY)])

  function EntryValue(e: Entry): Value {
    Fields(Int64(e.pos) + Int64(e.time), [])
  }

  function IndexValue(prev: int, next: int, index: seq<Entry>): Value {
    Fields(Int64(prev) + Int64(next), [Items(seq(|index|, i requires 0 <= i < |index| => EntryValue(index[i])))])
  }

  /** The code in front of a value of a class, and the hash of the type code of `RecordIndex`. */
  const CODE_TYPE: Cell := 15
  const INDEX_HASH: nat := 0x4024_9c66_8b4f_2046

  /** `write_class_header`: the code and the hash of the type code that follows. */
  function ClassHeader(hash: nat): seq<Byte> {
    LittleEndian(CODE_TYPE, 2) + LittleEndian(hash, 8)
  }

  /** The bytes of an index block. */
  function IndexBytes(prev: int, next: int, index: seq<Entry>): seq<Byte>
    requires |index| <= MAX_SIZE
  {
    IndexHasType(prev, next, index);
    ClassHeader(INDEX_HASH) + Encode(INDEX, IndexValue(prev, next, index))
  }

  /** How many bytes an index block with that many entries takes. */
  function IndexSize(blockSize: nat): nat {
    30 + 16 * blockSize
  }

  /** The schemas above are those of the type codes. */
  lemma {:induction false} IndexSchema()
    ensures Compiled(INDEX_TYPE) && StructOf(INDEX_TYPE, 0) == INDEX && Sound(INDEX)
  {
    var code := INDEX_TYPE.ext[0];
    assert Fetch(code, INDEX_TYPE, 1) == Ok(Instr(CODE_STRUCT, false, [], 2));
    assert WellFormed(code, INDEX_TYPE, 1);
    assert Fetch(code, INDEX_TYPE, 0) == Ok(Instr(CODE_LIST, false, [1], 0));
    assert WellFormed(code, INDEX_TYPE, 0);
    StructCode(code, INDEX_TYPE, 1);
    DecodeElement(code, INDEX_TYPE, 0);
    assert StructOf(ENTRY_TYPE, 0).ext == [];
    assert StructOf(INDEX_TYPE, 0).ext == [Lst(ENTRY)];
  }

  lemma {:induction false} IndexHasType(prev: int, next: int, index: seq<Entry>)
    requires |index| <= MAX_SIZE
    ensures HasType(INDEX, IndexValue(prev, next, index))
  {
    var v := IndexValue(prev, next, index);
    forall i: nat | i < |index|
      ensures HasType(ENTRY, v.items[0].items[i])
    {
      assert Fits(ENTRY, EntryValue(index[i]));
    }
    assert HasType(Lst(ENTRY), v.items[0]);
  }

  /** Whatever is in an index, it takes as many bytes as any other with as many entries. */
  lemma {:induction false} IndexTakes(prev: int, next: int, index: seq<Entry>)
    requires |index| <= MAX_SIZE
    ensures HasType(INDEX, IndexValue(prev, next, index))
    ensures |IndexBytes(prev, next, index)| == IndexSize(|index|)
  {
    hide HasType, Int64;
    IndexHasType(prev, next, index);
    var v := IndexValue(prev, next, index);
    var list := v.items[0];
    EncodingOfIndex(v, list);
    RunOfFixedSize(ENTRY, list, 0);
  }

  lemma {:induction false} EncodingOfIndex(v: Value, list: Value)
    requires HasType(INDEX, v) && v.Fields? && v.items == [list]
    ensures HasType(Lst(ENTRY), list) && list.Items?
    ensures forall k: nat :: k < |ItemsOf(list)| ==> HasType(Part([ENTRY], k), ItemsOf(list)[k])
    ensures |Encode(INDEX, v)| == 16 + 4 + |EncodeItems([ENTRY], list, 0)|
  {
    assert HasType(Part(Parts(INDEX, v), 0), v.items[0]);
    assert Encode(INDEX, v) == HeadOf(INDEX, v) + EncodeItems(Parts(INDEX, v), v, 0);
    assert EncodeItems(Parts(INDEX, v), v, 1) == [];
    assert EncodeItems(Parts(INDEX, v), v, 0) == Encode(Lst(ENTRY), list) + [];
    assert Encode(Lst(ENTRY), list) == HeadOf(Lst(ENTRY), list) + EncodeItems([ENTRY], list, 0);
  }

  /** Reading over an index block ends exactly where the next item starts. */
  lemma {:induction false} IndexIsRead(prev: int, next: int, index: seq<Entry>, rest: seq<Byte>)
    requires |index| <= MAX_SIZE
    ensures HasType(INDEX, IndexValue(prev, next, index))
    ensures var data := Encode(INDEX, IndexValue(prev, next, index));
            Copy(INDEX, data + rest, 0) == Done(Copied(|data|, data))
  {
    hide HasType, Copy, Encode;
    IndexHasType(prev, next, index);
    IndexSchema();
    var v := IndexValue(prev, next, index);
    CopyEncoded(INDEX, v, rest, 0);
    NestingOfIndex(v);
  }

  lemma {:induction false} NestingOfIndex(v: Value)
    requires HasType(INDEX, v)
    ensures Nesting(INDEX, v) <= MAX_RECURSION
  {
    var list := v.items[0];
    assert HasType(Part(Parts(INDEX, v), 0), list);
    assert FixedSize(ENTRY) == 16 && Nesting(Lst(ENTRY), list) == 1;
    assert ItemNesting(Parts(INDEX, v), v, 1) == 0;
    assert ItemNesting(Parts(INDEX, v), v, 0) == 1;
  }
}

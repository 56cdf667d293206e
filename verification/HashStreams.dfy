/** `calc_hash` over a stream and a flat code: the loops that feed the hash. */
module HashStreams {
  import opened Bytes
  import opened ByteCode
  import opened Schemas
  import opened Wire
  import opened CopySpec
  import opened CompareSpec
  import opened Streams
  import opened CompareStreams
  import opened HashSpec

  /** The stream has moved as r says, and the hash was fed what r says. */
  twostate predicate Hashed(input: TypeInput, hash: TypeOutput, new r: Outcome<Fed>, status: Status)
    requires old(input.Valid())
    reads input, hash
  {
    && input.Valid() && input.depth == old(input.depth)
    && status == (match r case Done(_) => Fine case Failed => Status.Threw case Outside => NotModelled)
    && (r.Done? ==> input.Rest() == r.value.rest && hash.data == old(hash.data) + r.value.bytes)
  }

  /** Feeds the next n bytes. */
  method HashBytes(input: TypeInput, hash: TypeOutput, n: nat) returns (status: Status)
    requires input.Valid()
    modifies input`pos, hash
    ensures Hashed(input, hash, FeedBytes(n, old(input.Rest())), status)
  {
    var ok, bytes := input.Read(n);
    if !ok {
      return Status.Threw;
    }
    hash.Write(bytes);
    status := Fine;
  }

  /** `calc_hash`, called from outside or for an item. */
  method HashValue(input: TypeInput, hash: TypeOutput, code: seq<Cell>, pos: nat) returns (status: Status)
    requires input.Valid() && WellFormed(code, NoType, pos)
    modifies input, hash
    ensures Hashed(input, hash, Feed(Decode(code, NoType, pos), old(input.Rest()), old(input.depth)), status)
    decreases MAX_RECURSION + 1 - input.depth, 1
  {
    hide Decode, WellFormed, FeedInside;
    input.depth := input.depth + 1;
    if input.depth > MAX_RECURSION {
      status := Status.Threw;
    } else {
      status := HashCode(input, hash, code, pos);
    }
    input.depth := input.depth - 1;
  }

  /** The switch over the first cell of the code. */
  method HashCode(input: TypeInput, hash: TypeOutput, code: seq<Cell>, pos: nat) returns (status: Status)
    requires input.Valid() && WellFormed(code, NoType, pos) && input.depth <= MAX_RECURSION
    modifies input, hash
    ensures Hashed(input, hash, FeedInside(Decode(code, NoType, pos), old(input.Rest()), old(input.depth)), status)
    decreases MAX_RECURSION + 1 - input.depth, 5
  {
    hide Decode, FeedInside, Fetch, WellFormed;
    CodeKind(code, pos);
    var c := code[pos];
    FeedSimple(Decode(code, NoType, pos), input.Rest(), input.depth);
    if Width(c) > 0 {
      status := HashBytes(input, hash, Width(c));
    } else if c == CODE_STRING {
      status := HashString(input, hash, Str);
    } else if c == CODE_ARRAY || c == CODE_LIST {
      status := HashList(input, hash, code, pos);
    } else if c == CODE_MAP {
      status := HashMap(input, hash, code, pos);
    } else if c == CODE_MATRIX {
      status := HashMatrix(input, hash, code, pos);
    } else if c == CODE_IMAGE {
      status := HashImage(input, hash, code, pos);
    } else if c == CODE_TUPLE {
      status := HashTuple(input, hash, code, pos);
    } else if c == CODE_DYNAMIC || c == CODE_OPTIONAL || c == CODE_OBJECT {
      status := HashWrapped(input, hash, code, pos);
    } else if IsForeign(c) || c == CODE_ANY {
      status := NotModelled;
    } else {
      hash.Write(LittleEndian(c, 2));
      status := Fine;
    }
  }

  /** Kinds without items. */
  lemma {:induction false} FeedSimple(s: Schema, data: seq<Byte>, depth: nat)
    requires depth <= MAX_RECURSION
    ensures s.Prim? ==> FeedInside(s, data, depth) == FeedBytes(Width(s.kind), data)
    ensures s.Foreign? || s.Any? ==> FeedInside(s, data, depth) == Outside
    ensures s.Null? || s.TypeDesc? || s.Struct? ==>
              FeedInside(s, data, depth) == Done(Fed(LittleEndian(KindCode(s), 2), data))
  {
  }

  /** A size, and then that many bytes. */
  method HashString(input: TypeInput, hash: TypeOutput, ghost s: Schema) returns (status: Status)
    requires input.Valid() && input.depth <= MAX_RECURSION && s.Str?
    modifies input`pos, hash
    ensures Hashed(input, hash, FeedInside(s, old(input.Rest()), old(input.depth)), status)
  {
    var ok, bytes := input.Read(4);
    if !ok {
      return Status.Threw;
    }
    status := HashBytes(input, hash, FromLittleEndian(bytes));
  }

  /** The loops over items; the codes start over when there are more items. */
  method HashEach(
      input: TypeInput, hash: TypeOutput, code: seq<Cell>, at: seq<nat>, n: nat, ghost parts: seq<Schema>)
    returns (status: Status)
    requires input.Valid() && input.depth <= MAX_RECURSION && |at| == |parts| && (n > 0 ==> |at| > 0)
    requires forall k: nat :: k < |at| ==> WellFormed(code, NoType, at[k]) && Decode(code, NoType, at[k]) == parts[k]
    modifies input, hash
    ensures Hashed(input, hash, FeedItems(parts, 0, n, old(input.Rest()), old(input.depth)), status)
    decreases MAX_RECURSION + 1 - input.depth, 2
  {
    hide Decode, WellFormed, Feed, FeedItems;
    var depth := input.depth;
    ghost var fed := [];
    var i := 0;
    FedNothing(FeedItems(parts, 0, n, input.Rest(), depth));
    while i < n
      invariant 0 <= i <= n && input.Valid() && input.depth == depth && hash.data == old(hash.data) + fed
      invariant FeedItems(parts, 0, n, old(input.Rest()), depth)
                == FedThen(fed, FeedItems(parts, i, n, input.Rest(), depth))
    {
      FeedItemsNext(parts, i, n, input.Rest(), depth);
      var k := if |at| == 1 then 0 else if i < |at| then i else i % |at|;
      assert parts[k] == Part(parts, i);
      ghost var first := Feed(parts[k], input.Rest(), depth);
      status := HashValue(input, hash, code, at[k]);
      if !status.Fine? {
        return;
      }
      FedTwice(fed, first.value.bytes, FeedItems(parts, i + 1, n, input.Rest(), depth));
      fed := fed + first.value.bytes;
      i := i + 1;
    }
    FeedItemsNext(parts, i, n, input.Rest(), depth);
    assert fed + [] == fed;
    status := Fine;
  }

  lemma FedNothing(r: Outcome<Fed>)
    ensures FedThen([], r) == r
  {
    if r.Done? {
      assert [] + r.value.bytes == r.value.bytes;
    }
  }

  lemma FedTwice(a: seq<Byte>, b: seq<Byte>, r: Outcome<Fed>)
    ensures FedThen(a, FedThen(b, r)) == FedThen(a + b, r)
  {
    if r.Done? {
      assert a + (b + r.value.bytes) == a + b + r.value.bytes;
    }
  }

  /** `calc_hash_array`: single bytes at once, anything else one by one. */
  method HashArray(input: TypeInput, hash: TypeOutput, n: nat, code: seq<Cell>, pos: nat) returns (status: Status)
    requires input.Valid() && WellFormed(code, NoType, pos) && input.depth <= MAX_RECURSION
    modifies input, hash
    ensures Hashed(input, hash, FeedArray(Decode(code, NoType, pos), n, old(input.Rest()), old(input.depth)), status)
    decreases MAX_RECURSION + 1 - input.depth, 3
  {
    hide Decode, WellFormed, FeedItems;
    CodeKind(code, pos);
    if IsByteSized(code[pos]) {
      status := HashBytes(input, hash, n);
    } else {
      status := HashEach(input, hash, code, [pos], n, [Decode(code, NoType, pos)]);
    }
  }

  /** Arrays and lists. */
  method HashList(input: TypeInput, hash: TypeOutput, code: seq<Cell>, pos: nat) returns (status: Status)
    requires input.Valid() && WellFormed(code, NoType, pos) && input.depth <= MAX_RECURSION
    requires code[pos] == CODE_ARRAY || code[pos] == CODE_LIST
    modifies input, hash
    ensures Hashed(input, hash, FeedInside(Decode(code, NoType, pos), old(input.Rest()), old(input.depth)), status)
    decreases MAX_RECURSION + 1 - input.depth, 4
  {
    hide Decode, WellFormed, FeedArray;
    DecodeElement(code, NoType, pos);
    if code[pos] == CODE_ARRAY {
      status := HashArray(input, hash, code[pos + 1], code, pos + 2);
    } else {
      var ok, bytes := input.Read(4);
      if !ok {
        return Status.Threw;
      }
      status := HashArray(input, hash, FromLittleEndian(bytes), code, pos + 1);
    }
  }

  method HashMap(input: TypeInput, hash: TypeOutput, code: seq<Cell>, pos: nat) returns (status: Status)
    requires input.Valid() && WellFormed(code, NoType, pos) && input.depth <= MAX_RECURSION && code[pos] == CODE_MAP
    modifies input, hash
    ensures Hashed(input, hash, FeedInside(Decode(code, NoType, pos), old(input.Rest()), old(input.depth)), status)
    decreases MAX_RECURSION + 1 - input.depth, 4
  {
    hide Decode, WellFormed, FeedItems;
    DecodeMap(code, NoType, pos);
    var ok, bytes := input.Read(4);
    if !ok {
      return Status.Threw;
    }
    status := HashEach(input, hash, code, [pos + 2, pos + code[pos + 1]], 2 * FromLittleEndian(bytes),
                       [Decode(code, NoType, pos + 2), Decode(code, NoType, pos + code[pos + 1])]);
  }

  method HashMatrix(input: TypeInput, hash: TypeOutput, code: seq<Cell>, pos: nat) returns (status: Status)
    requires input.Valid() && WellFormed(code, NoType, pos) && input.depth <= MAX_RECURSION
    requires code[pos] == CODE_MATRIX
    modifies input, hash
    ensures Hashed(input, hash, FeedInside(Decode(code, NoType, pos), old(input.Rest()), old(input.depth)), status)
    decreases MAX_RECURSION + 1 - input.depth, 4
  {
    hide Decode, WellFormed, FeedArray;
    DecodeElement(code, NoType, pos);
    var size := TotalSize(code[pos + 2..pos + 2 + code[pos + 1]]);
    status := HashArray(input, hash, size, code, pos + 2 + code[pos + 1]);
  }

  method HashImage(input: TypeInput, hash: TypeOutput, code: seq<Cell>, pos: nat) returns (status: Status)
    requires input.Valid() && WellFormed(code, NoType, pos) && input.depth <= MAX_RECURSION
    requires code[pos] == CODE_IMAGE
    modifies input, hash
    ensures Hashed(input, hash, FeedInside(Decode(code, NoType, pos), old(input.Rest()), old(input.depth)), status)
    decreases MAX_RECURSION + 1 - input.depth, 4
  {
    hide Decode, WellFormed, FeedArray;
    DecodeElement(code, NoType, pos);
    var rank: nat := code[pos + 1];
    var ok, bytes := input.Read(4 * rank);
    if !ok {
      return Status.Threw;
    }
    var size := TotalSize(ReadDims(bytes, rank));
    ReadDimsPrefix(old(input.Rest()), rank);
    status := HashArray(input, hash, size, code, pos + 2);
  }

  method HashTuple(input: TypeInput, hash: TypeOutput, code: seq<Cell>, pos: nat) returns (status: Status)
    requires input.Valid() && WellFormed(code, NoType, pos) && input.depth <= MAX_RECURSION
    requires code[pos] == CODE_TUPLE
    modifies input, hash
    ensures Hashed(input, hash, FeedInside(Decode(code, NoType, pos), old(input.Rest()), old(input.depth)), status)
    decreases MAX_RECURSION + 1 - input.depth, 4
  {
    hide Decode, WellFormed, FeedItems, Fetch;
    DecodeTupleCode(code, NoType, pos);
    var at := TupleChildren(code, pos);
    status := HashEach(input, hash, code, at, |at|, DecodeAll(code, NoType, pos, at));
  }

  /** Dynamic values, optional values and objects: the hash is that of what is inside. */
  method HashWrapped(input: TypeInput, hash: TypeOutput, code: seq<Cell>, pos: nat) returns (status: Status)
    requires input.Valid() && WellFormed(code, NoType, pos) && input.depth <= MAX_RECURSION
    requires code[pos] == CODE_DYNAMIC || code[pos] == CODE_OPTIONAL || code[pos] == CODE_OBJECT
    modifies input, hash
    ensures Hashed(input, hash, FeedInside(Decode(code, NoType, pos), old(input.Rest()), old(input.depth)), status)
    decreases MAX_RECURSION + 1 - input.depth, 4
  {
    hide Decode, WellFormed, Feed, ReadByteCode;
    DecodeSimple(code, NoType, pos);
    if code[pos] == CODE_DYNAMIC {
      var ok, inner, raw := ReadDynamicCode(input);
      if !ok {
        return Status.Threw;
      }
      status := HashValue(input, hash, inner, 0);
    } else if code[pos] == CODE_OPTIONAL {
      DecodeElement(code, NoType, pos);
      var ok, bytes := input.Read(1);
      if !ok {
        return Status.Threw;
      }
      if bytes[0] != 0 {
        status := HashValue(input, hash, code, pos + 1);
      } else {
        assert hash.data + [] == hash.data;
        status := Fine;
      }
    } else {
      CheckObjectCode(OBJECT_CODE, NoType);
      status := HashValue(input, hash, OBJECT_CODE, 0);
    }
  }
}

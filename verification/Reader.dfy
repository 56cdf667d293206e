/**
 `RecordReader`: a cursor over linked index blocks. Every operation is tied to the flat list of
 entries: `flat` is the entry the cursor stands for.
 */
module Reader {
  import opened Bytes
  import opened Recordings

  datatype OpenError = NoHeader | NoIndex | EmptyRecording | NoSample

  /** The entry after the last one of block k. */
  function BlockEnd(r: Recording, k: nat): nat
    requires Shaped(r) && k < |r.starts|
  {
    if k + 1 < |r.starts| then r.starts[k + 1] else |r.entries|
  }

  /** The used entries of block k. */
  function Used(r: Recording, k: nat): (used: seq<Entry>)
    requires Shaped(r) && k < |r.starts| && r.starts[k] <= BlockEnd(r, k) <= |r.entries|
    ensures |used| == BlockEnd(r, k) - r.starts[k]
  {
    r.entries[r.starts[k]..BlockEnd(r, k)]
  }

  lemma {:induction false} BlockBounds(r: Recording, k: nat)
    requires Shaped(r) && k < |r.starts|
    ensures r.starts[k] <= BlockEnd(r, k) <= |r.entries|
    ensures BlockEnd(r, k) <= r.starts[k] + r.blockSize
    ensures k + 1 < |r.starts| ==> BlockEnd(r, k) == r.starts[k] + r.blockSize
    decreases |r.starts| - k
  {
    if k + 1 < |r.starts| {
      BlockBounds(r, k + 1);
    }
  }

  /** Entries without the unused ones at the end. */
  function Trimmed(index: seq<Entry>): seq<Entry> {
    if index == [] || index[|index| - 1].pos != -1 then index else Trimmed(index[..|index| - 1])
  }

  lemma {:induction false} TrimmedPadded(index: seq<Entry>, n: nat)
    requires n <= |index|
    requires forall j: nat :: j < n ==> index[j].pos != -1
    requires forall j: nat :: n <= j < |index| ==> index[j].pos == -1
    ensures Trimmed(index) == index[..n]
  {
    if n < |index| {
      TrimmedPadded(index[..|index| - 1], n);
      assert index[..|index| - 1][..n] == index[..n];
    } else {
      assert index[..n] == index;
    }
  }

  /** What is left of the index of a block once it has been read. */
  lemma {:induction false} TrimmedIndex(r: Recording, k: nat)
    requires Shaped(r) && k < |r.starts|
    ensures r.starts[k] <= BlockEnd(r, k) <= |r.entries| && Trimmed(IndexOf(r, k)) == Used(r, k)
  {
    BlockBounds(r, k);
    var n := BlockEnd(r, k) - r.starts[k];
    TrimmedPadded(IndexOf(r, k), n);
    assert IndexOf(r, k)[..n] == Used(r, k);
  }

  /** How a block relates to its neighbours; only the last one can be empty. */
  lemma {:induction false} BlockFacts(file: File, r: Recording, k: nat)
    requires Holds(file, r) && k < |r.starts|
    ensures Shaped(r) && r.starts[k] <= BlockEnd(r, k) <= |r.entries|
    ensures if k + 1 < |r.starts| then
              && Next(r, k) == r.blocks[k + 1] && r.starts[k] < BlockEnd(r, k) == r.starts[k + 1]
            else Next(r, k) == -1 && BlockEnd(r, k) == |r.entries|
    ensures if k > 0 then
              && Prev(r, k) == r.blocks[k - 1] && r.starts[k - 1] < BlockEnd(r, k - 1) == r.starts[k]
            else Prev(r, k) == -1 && r.starts[k] == 0
  {
    hide IndexOf, BlockOnFile, EntryOnFile, Adjacent;
    BlockBounds(r, k);
  }

  lemma {:induction false} FollowsInBlock(file: File, r: Recording, k: nat, i: nat)
    requires Holds(file, r) && k < |r.starts| && r.starts[k] < i < BlockEnd(r, k) && i < |r.entries|
    ensures var pos := r.entries[i - 1].pos; pos in file && r.entries[i].pos == pos + file[pos].size
  {
    assert Adjacent(file, r, i);
    forall j: nat | j < |r.starts|
      ensures r.starts[j] != i
    {
      if j < k {
        StartsApart(r, j, k);
      } else if k + 1 < j {
        StartsApart(r, k + 1, j);
      }
    }
  }

  lemma FollowsIndex(file: File, r: Recording, k: nat)
    requires Holds(file, r) && k < |r.starts| && r.starts[k] < |r.entries|
    ensures r.entries[r.starts[k]].pos == r.blocks[k] + r.indexSize
  {
    assert Adjacent(file, r, r.starts[k]);
  }

  /**
   What `read_prev` comes to: nothing at the start, the sample of some entry, the current sample again at
   the end of the file, or an exception at an index block.
   */
  datatype PrevResult = Beginning | Reads(entry: nat) | Again | ThrowsAtIndex

  /** `read_prev` from entry i in block k, with the stream right after entry e of that block. */
  function PrevOf(r: Recording, k: nat, i: nat, e: nat): PrevResult
    requires Shaped(r) && k < |r.starts|
  {
    if i == 0 then Beginning
    else if i == r.starts[k] then ThrowsAtIndex
    else if e + 1 < BlockEnd(r, k) then Reads(e + 1)
    else if k + 1 < |r.starts| then ThrowsAtIndex
    else Again
  }

  /** What is at the stream position once `seek_prev` has moved from entry i in block k to block `now`. */
  lemma {:induction false} AfterPrev(file: File, r: Recording, k: nat, i: nat, e: nat, now: nat)
    requires Holds(file, r) && k < |r.starts| && now < |r.starts| && r.starts[k] <= e < BlockEnd(r, k)
    requires 0 < i && r.starts[k] <= i < BlockEnd(r, k) && r.starts[now] <= i - 1 < BlockEnd(r, now)
    requires BlockEnd(r, k) <= |r.entries|
    ensures now == if i == r.starts[k] then k - 1 else k
    ensures r.entries[i - 1].pos in file && r.entries[e].pos in file
    ensures var from := r.entries[if now == k then e else i - 1].pos;
            var pos := from + file[from].size;
            match PrevOf(r, k, i, e)
            case Reads(j) =>
              && j == e + 1 < |r.entries| && Resolves(file, pos, r.samples[j]) && r.entries[j].pos == pos
            case Again => pos !in file
            case _ => pos in file && file[pos].item.IndexItem?
  {
    hide Holds;
    BlockFacts(file, r, k);
    hide Shaped, BlockEnd;
    BlockOfEntry(file, r, k, i, now);
    EntryIsThere(file, r, i - 1);
    EntryIsThere(file, r, e);
    if i == r.starts[k] {
      NextIsIndex(file, r, k);
    } else if e + 1 < BlockEnd(r, k) {
      FollowsInBlock(file, r, k, e + 1);
      EntryIsThere(file, r, e + 1);
    } else if k + 1 < |r.starts| {
      NextIsIndex(file, r, k + 1);
    } else {
      NothingFollows(file, r);
    }
  }

  lemma {:induction false} BlockOfEntry(file: File, r: Recording, k: nat, i: nat, now: nat)
    requires Holds(file, r) && k < |r.starts| && now < |r.starts|
    requires 0 < i && r.starts[k] <= i < BlockEnd(r, k) && r.starts[now] <= i - 1 < BlockEnd(r, now)
    ensures now == if i == r.starts[k] then k - 1 else k
  {
    hide Holds, Shaped;
    BlockFacts(file, r, k);
    if now < k {
      StartsBetween(r, now, k);
      if now < k - 1 {
        BlockFacts(file, r, k - 1);
        StartsBetween(r, now, k - 1);
      }
    } else if k < now {
      StartsBetween(r, k, now);
    }
  }

  lemma EntryIsThere(file: File, r: Recording, i: nat)
    requires Holds(file, r) && i < |r.entries|
    ensures |r.samples| == |r.entries| && r.entries[i].pos >= 0 && Resolves(file, r.entries[i].pos, r.samples[i])
  {
    assert EntryOnFile(file, r, i);
  }

  lemma NextIsIndex(file: File, r: Recording, k: nat)
    requires Holds(file, r) && 0 < k < |r.starts|
    ensures 0 < r.starts[k] <= |r.entries|
    ensures var pos := r.entries[r.starts[k] - 1].pos;
            && pos in file && pos + file[pos].size in file && file[pos + file[pos].size].item.IndexItem?
  {
    assert FollowsEntry(file, r, k);
    assert BlockOnFile(file, r, k);
  }

  lemma NothingFollows(file: File, r: Recording)
    requires Holds(file, r) && r.starts[|r.starts| - 1] < |r.entries|
    ensures var pos := r.entries[|r.entries| - 1].pos; pos in file && pos + file[pos].size !in file
  {
  }

  class RecordReader {
    const file: File
    var streamPos: nat
    var prev: int
    var next: int
    var index: seq<Entry>
    var indexPos: int
    var currSample: Option<Sample>
    var isBegin: bool
    var isEnd: bool

    ghost const rec: Recording
    ghost var block: nat
    ghost var flat: nat

    /** The cursor stands for entry `flat`, which is in block `block`. */
    ghost predicate Valid(): (b: bool)
      ensures b ==> flat < |rec.entries| == |rec.samples|
      reads this
    {
      && Holds(file, rec) && OnBlock()
      && rec.starts[block] <= flat < BlockEnd(rec, block)
      && indexPos == flat - rec.starts[block]
    }

    /** The index in memory is that of block `block`. */
    ghost predicate OnBlock()
      requires Shaped(rec)
      reads this
    {
      && block < |rec.starts| && rec.starts[block] <= BlockEnd(rec, block) <= |rec.entries|
      && prev == Prev(rec, block) && next == Next(rec, block) && index == Used(rec, block)
    }

    /** The stream is right after entry `flat`, and its sample is the current one. */
    ghost predicate InSync()
      reads this
      requires Valid()
    {
      && currSample == Some(rec.samples[flat])
      && rec.entries[flat].pos in file && streamPos == rec.entries[flat].pos + file[rec.entries[flat].pos].size
    }

    constructor (file: File, ghost rec: Recording)
      ensures this.file == file && this.rec == rec
    {
      this.file, this.rec := file, rec;
      streamPos, prev, next, index, indexPos := 0, -1, -1, [], -1;
      currSample, isBegin, isEnd := None, false, false;
      block, flat := 0, 0;
    }

    /** `read_index`: the block at the stream position, without its unused entries. */
    method ReadIndex() returns (ok: bool)
      modifies this`streamPos, this`prev, this`next, this`index, this`indexPos
      ensures ok == (old(streamPos) in file && file[old(streamPos)].item.IndexItem?)
      ensures ok ==>
                var placed := file[old(streamPos)];
                && streamPos == old(streamPos) + placed.size
                && prev == placed.item.prev && next == placed.item.next && index == Trimmed(placed.item.index)
                && indexPos == if index == [] then -1 else 0
    {
      if streamPos !in file || !file[streamPos].item.IndexItem? {
        return false;
      }
      var placed := file[streamPos];
      streamPos := streamPos + placed.size;
      prev, next, index := placed.item.prev, placed.item.next, placed.item.index;
      while index != [] && index[|index| - 1].pos == -1
        invariant Trimmed(index) == Trimmed(placed.item.index)
        decreases |index|
        modifies this`index
      {
        index := index[..|index| - 1];
      }
      indexPos := if index == [] then -1 else 0;
      ok := true;
    }

    /** `read_sample`: follows pointers and returns to the place after them. */
    method ReadSample() returns (ok: bool)
      requires PointersBack(file)
      modifies this`streamPos, this`currSample, this`isEnd
      ensures old(streamPos) !in file ==> ok && isEnd && streamPos == old(streamPos) && currSample == old(currSample)
      ensures old(streamPos) in file ==> streamPos == old(streamPos) + file[old(streamPos)].size
      ensures forall s :: Resolves(file, old(streamPos), s) ==> ok && currSample == Some(s) && isEnd == old(isEnd)
      ensures old(streamPos) in file && file[old(streamPos)].item.IndexItem? ==> !ok
      decreases streamPos
    {
      if streamPos !in file {
        isEnd := true;
        return true;
      }
      var placed := file[streamPos];
      var after := streamPos + placed.size;
      if placed.item.PointerItem? {
        assert forall s :: Resolves(file, streamPos, s) ==> Resolves(file, placed.item.position, s);
        streamPos := placed.item.position;
        ok := ReadSample();
        streamPos := after;
      } else if placed.item.SampleItem? {
        currSample := Some(placed.item.sample);
        streamPos := after;
        ok := true;
      } else {
        streamPos := after;
        ok := false;
      }
    }

    method SeekAndReadSample() returns (ok: bool)
      requires Valid()
      modifies this`streamPos, this`currSample, this`isEnd
      ensures Valid() && InSync() && ok && isEnd == old(isEnd)
    {
      assert EntryOnFile(file, rec, flat);
      assert Resolves(file, rec.entries[flat].pos, rec.samples[flat]);
      streamPos := index[indexPos].pos;
      ok := ReadSample();
    }

    /** Moves to a block and reads its index. */
    method GoTo(pos: nat, ghost k: nat)
      requires Holds(file, rec) && k < |rec.blocks| && pos == rec.blocks[k]
      modifies this
      ensures OnBlock() && block == k && streamPos == rec.blocks[k] + rec.indexSize
      ensures indexPos == if rec.starts[k] == BlockEnd(rec, k) then -1 else 0
      ensures flat == old(flat) && currSample == old(currSample) && isBegin == old(isBegin) && isEnd == old(isEnd)
    {
      assert BlockOnFile(file, rec, k);
      TrimmedIndex(rec, k);
      streamPos := pos;
      var ok := ReadIndex();
      assert ok;
      block := k;
    }

    /** Steps forward; at the end the cursor stays on the last entry. */
    method SeekNext() returns (moved: bool)
      requires Valid()
      modifies this
      ensures Valid() && moved == (old(flat) + 1 < |rec.entries|)
      ensures flat == (if moved then old(flat) + 1 else old(flat)) && isEnd == !moved && !isBegin
      ensures old(InSync()) ==> if moved then streamPos == rec.entries[flat].pos else InSync()
    {
      hide Holds, Used, Shaped, BlockEnd, Prev, Next;
      BlockFacts(file, rec, block);
      if flat + 1 < BlockEnd(rec, block) {
        FollowsInBlock(file, rec, block, flat + 1);
      }
      isBegin, isEnd := false, false;
      indexPos := indexPos + 1;
      if indexPos >= |index| {
        moved := LeaveBlock();
      } else {
        flat := flat + 1;
        moved := true;
      }
    }

    /** At the end of a block: to the first entry of the next one, or nowhere. */
    method LeaveBlock() returns (moved: bool)
      requires Holds(file, rec) && OnBlock() && |rec.samples| == |rec.entries|
      requires rec.starts[block] <= flat < |rec.entries| && flat + 1 == BlockEnd(rec, block) && indexPos == |index|
      requires !isBegin && !isEnd
      modifies this
      ensures Valid() && moved == (old(flat) + 1 < |rec.entries|)
      ensures flat == (if moved then old(flat) + 1 else old(flat)) && isEnd == !moved && !isBegin
      ensures var pos := rec.entries[old(flat)].pos;
              pos in file && old(currSample) == Some(rec.samples[old(flat)])
              && old(streamPos) == pos + file[pos].size ==>
                if moved then streamPos == rec.entries[flat].pos else InSync()
    {
      hide Holds, Used, Shaped, BlockEnd, Prev, Next;
      BlockFacts(file, rec, block);
      moved := true;
      if next >= 0 {
        BlockFacts(file, rec, block + 1);
        if rec.starts[block + 1] < |rec.entries| {
          FollowsIndex(file, rec, block + 1);
        }
        GoTo(next, block + 1);
        if indexPos < 0 {
          FixIndexPos();
          isEnd := true;
          moved := false;
        } else {
          flat := flat + 1;
        }
      } else {
        FixIndexPos();
        isEnd := true;
        moved := false;
      }
    }

    /** Keeps the cursor inside the block, or goes back to the last entry of the block before an empty one. */
    method FixIndexPos()
      requires Holds(file, rec) && OnBlock() && flat < |rec.entries|
      requires rec.starts[block] == BlockEnd(rec, block) ==> block > 0 && flat + 1 == rec.starts[block]
      requires rec.starts[block] < BlockEnd(rec, block) ==>
                 flat == rec.starts[block]
                         + (if indexPos < 0 then 0 else if indexPos >= |index| then |index| - 1 else indexPos)
      modifies this
      ensures Valid() && flat == old(flat) && isBegin == old(isBegin) && isEnd == old(isEnd)
      ensures if old(rec.starts[block] == BlockEnd(rec, block)) then InSync()
              else block == old(block) && streamPos == old(streamPos) && currSample == old(currSample)
    {
      hide Holds, Used, Shaped, BlockEnd, Prev, Next;
      BlockFacts(file, rec, block);
      if index == [] {
        BlockFacts(file, rec, block - 1);
        GoTo(prev, block - 1);
        indexPos := |index| - 1;
        var ok := SeekAndReadSample();
      } else if indexPos < 0 {
        indexPos := 0;
      } else if indexPos >= |index| {
        indexPos := |index| - 1;
      }
    }

    /** Steps back; at the beginning the cursor stays on the first entry. */
    method SeekPrev() returns (moved: bool)
      requires Valid()
      modifies this
      ensures Valid() && moved == (old(flat) > 0)
      ensures flat == (if moved then old(flat) - 1 else old(flat)) && isBegin == !moved && !isEnd
      ensures !moved ==> block == old(block)
      ensures block == old(block) ==> streamPos == old(streamPos) && currSample == old(currSample)
      ensures block != old(block) ==> InSync()
    {
      hide Holds, Used, Shaped, BlockEnd, Prev, Next;
      BlockFacts(file, rec, block);
      isBegin, isEnd := false, false;
      indexPos := indexPos - 1;
      moved := true;
      if indexPos < 0 {
        if prev >= 0 {
          BlockFacts(file, rec, block - 1);
          GoTo(prev, block - 1);
          indexPos := |index| - 1;
          flat := flat - 1;
          var ok := SeekAndReadSample();
        } else {
          FixIndexPos();
          isBegin := true;
          moved := false;
        }
      } else {
        flat := flat - 1;
      }
    }

    /** `reset`: reads the header and the first block, and the first sample. */
    method Reset() returns (error: Option<OpenError>)
      requires PointersBack(file)
      modifies this
      ensures 0 !in file || !file[0].item.HeaderItem? ==> error == Some(NoHeader)
      ensures Holds(file, rec) && rec.entries == [] ==> error == Some(EmptyRecording)
      ensures Holds(file, rec) && rec.entries != [] ==>
                error.None? && Valid() && InSync() && flat == 0 && !isEnd
    {
      hide Shaped, BlockEnd, Prev, Next, IndexOf, Resolves;
      if Holds(file, rec) {
        assert BlockOnFile(file, rec, 0);
        TrimmedIndex(rec, 0);
        BlockFacts(file, rec, 0);
        if rec.entries != [] {
          FirstEntry(file, rec);
        }
      }
      streamPos, isEnd := 0, false;
      if streamPos !in file || !file[streamPos].item.HeaderItem? {
        return Some(NoHeader);
      }
      streamPos := file[streamPos].size;
      var ok := ReadIndex();
      if !ok {
        return Some(NoIndex);
      }
      if indexPos < 0 {
        return Some(EmptyRecording);
      }
      block, flat := 0, 0;
      if index[indexPos].pos < 0 {
        return Some(NoSample);
      }
      streamPos := index[indexPos].pos;
      ok := ReadSample();
      error := if ok then None else Some(NoSample);
    }

    /** `read_next`: the sample after the current one, if there is one. */
    method ReadNext() returns (r: Option<Sample>)
      requires Valid() && InSync()
      modifies this
      ensures Valid() && InSync() && isEnd == r.None?
      ensures if old(flat) + 1 < |rec.entries| then flat == old(flat) + 1 && r == Some(rec.samples[flat])
              else flat == old(flat) && r.None?
    {
      var moved := SeekNext();
      if !moved {
        return None;
      }
      assert EntryOnFile(file, rec, flat);
      assert Resolves(file, streamPos, rec.samples[flat]);
      var ok := ReadSample();
      r := currSample;
    }

    /** The stream is right after entry e of the current block. */
    ghost predicate StreamAfter(e: nat)
      reads this
      requires Valid()
    {
      && rec.starts[block] <= e < BlockEnd(rec, block) <= |rec.entries|
      && rec.entries[e].pos in file && streamPos == rec.entries[e].pos + file[rec.entries[e].pos].size
    }

    /**
     `read_prev` moves the cursor, but inside a block not the stream, so it reads whatever comes after
     the sample that was read last: when the reader is in step that is the one of the cursor, and after
     another `read_prev` a later one.
     */
    method ReadPrev(ghost e: nat) returns (ok: bool, r: Option<Sample>)
      requires Valid() && StreamAfter(e)
      modifies this
      ensures Valid() && flat == if old(flat) > 0 then old(flat) - 1 else 0
      ensures match PrevOf(rec, old(block), old(flat), e)
              case Beginning => ok && r.None? && isBegin && currSample == old(currSample) && StreamAfter(e)
              case Reads(i) =>
                ok && i < |rec.samples| && r == currSample == Some(rec.samples[i]) && !isEnd && !isBegin && StreamAfter(i)
              case Again => ok && r == currSample == old(currSample) && isEnd && !isBegin && StreamAfter(e)
              case ThrowsAtIndex => !ok
      // in step, the sample before comes back exactly if another sample that is there happens to be the same
      ensures var i, k := old(flat), old(block);
              i > 0 && old(InSync()) && e == i ==>
                ((ok && r == Some(rec.samples[i - 1]))
                 <==> && rec.starts[k] < i && (i + 1 < BlockEnd(rec, k) || k + 1 == |rec.starts|)
                      && rec.samples[i - 1] == rec.samples[if i + 1 < BlockEnd(rec, k) then i + 1 else i])
    {
      hide Used, Shaped, BlockEnd, Prev, Next;
      BlockFacts(file, rec, block);
      ghost var i, k := flat, block;
      var moved := SeekPrev();
      if !moved {
        return true, None;
      }
      AfterPrev(file, rec, k, i, e, block);
      ok := ReadSample();
      r := currSample;
    }

    method SeekByCount(count: int)
      requires Valid()
      modifies this
      ensures Valid() && InSync()
      ensures flat == var target := old(flat) + count;
                      if target < 0 then 0 else if target < |rec.entries| then target else |rec.entries| - 1
      ensures count != 0 ==>
                && (isEnd <==> old(flat) + count >= |rec.entries|)
                && (isBegin <==> old(flat) + count < 0)
    {
      var left := count;
      var done := false;
      while left != 0 && !done
        invariant Valid()
        invariant if done then flat == (if count >= 0 then |rec.entries| - 1 else 0)
                  else flat + left == old(flat) + count
        invariant done ==> if count >= 0 then old(flat) + count >= |rec.entries| else old(flat) + count < 0
        invariant if count >= 0 then 0 <= left <= count else count <= left <= 0
        invariant done ==> left != count
        invariant left != count ==> isEnd == (done && count >= 0) && isBegin == (done && count < 0)
        decreases if left < 0 then -left else left, !done
      {
        var moved;
        if count >= 0 {
          left := left - 1;
          moved := SeekNext();
        } else {
          left := left + 1;
          moved := SeekPrev();
        }
        done := !moved;
      }
      var ok := SeekAndReadSample();
    }

    /** The recorded time of the entry under the cursor. */
    function Time(): int
      requires Valid()
      reads this
      ensures Time() == rec.entries[flat].time
    {
      index[indexPos].time
    }

    /**
     `seek_by_time`: forward, the first entry at least that much later; backward, the last one at
     least that much earlier; else the end that was reached.
     */
    method SeekByTime(micros: int)
      requires Valid()
      modifies this
      ensures Valid() && InSync()
      ensures var base := rec.entries[old(flat)].time;
              if micros >= 0 then
                && old(flat) <= flat
                && (forall j :: old(flat) <= j < flat ==> rec.entries[j].time - base < micros)
                && (rec.entries[flat].time - base >= micros || flat == |rec.entries| - 1)
              else
                && flat <= old(flat)
                && (forall j :: flat < j <= old(flat) ==> rec.entries[j].time - base > micros)
                && (rec.entries[flat].time - base <= micros || flat == 0)
      ensures var delta := rec.entries[flat].time - rec.entries[old(flat)].time;
              (micros >= 0 && delta < micros ==> isEnd) && (micros < 0 && delta > micros ==> isBegin)
    {
      hide Holds, RecordReader.OnBlock, Shaped, BlockEnd;
      var forward := micros >= 0;
      var base := Time();
      var done := false;
      while !done
        invariant Valid()
        invariant if forward then old(flat) <= flat else flat <= old(flat)
        invariant forward ==> forall j :: old(flat) <= j < flat ==> rec.entries[j].time - base < micros
        invariant !forward ==> forall j :: flat < j <= old(flat) ==> rec.entries[j].time - base > micros
        invariant done && forward ==> rec.entries[flat].time - base >= micros || (flat == |rec.entries| - 1 && isEnd)
        invariant done && !forward ==> rec.entries[flat].time - base <= micros || (flat == 0 && isBegin)
        decreases !done, if forward then |rec.entries| - flat else flat
      {
        var delta := Time() - base;
        var moved := false;
        if forward {
          if delta < micros {
            moved := SeekNext();
          }
        } else {
          if delta > micros {
            moved := SeekPrev();
          }
        }
        done := !moved;
      }
      var ok := SeekAndReadSample();
    }

    method SeekToTime(time: int)
      requires Valid()
      modifies this
      ensures Valid() && InSync()
      ensures if time >= rec.entries[old(flat)].time then
                && (forall j :: old(flat) <= j < flat ==> rec.entries[j].time < time)
                && (rec.entries[flat].time >= time || flat == |rec.entries| - 1)
              else
                && (forall j :: flat < j <= old(flat) ==> rec.entries[j].time > time)
                && (rec.entries[flat].time <= time || flat == 0)
      ensures var was := rec.entries[old(flat)].time;
              && (was <= time && rec.entries[flat].time < time ==> isEnd)
              && (time < was && rec.entries[flat].time > time ==> isBegin)
    {
      SeekByTime(time - Time());
    }
  }

  lemma FirstEntry(file: File, r: Recording)
    requires Holds(file, r) && r.entries != []
    ensures |r.blocks| > 0 && r.starts[0] == 0 < BlockEnd(r, 0) && r.entries[0].pos >= 0
    ensures Resolves(file, r.entries[0].pos, r.samples[0])
  {
    assert EntryOnFile(file, r, 0);
  }

  lemma {:induction false} StartsBetween(r: Recording, j: nat, k: nat)
    requires Shaped(r) && j < k < |r.starts|
    ensures BlockEnd(r, j) <= r.starts[k]
  {
    if j + 1 < k {
      StartsApart(r, j + 1, k);
    }
  }
}

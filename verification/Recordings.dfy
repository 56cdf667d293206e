/**
 Recording files: samples in index blocks that are linked both ways, with pointers in place of data
 that is already there. This file holds the format; writer and reader have files of their own.
 */
module Recordings {
  import opened Bytes

  datatype Sample = Sample(source: nat, topic: nat, seqNum: nat, recvTime: int, value: int)

  /** An index entry; an unused one has position -1. */
  datatype Entry = Entry(pos: int, time: int)

  const UNUSED := Entry(-1, 0)

  datatype Item =
    | HeaderItem(beginTime: int, endTime: int)
    | IndexItem(prev: int, next: int, index: seq<Entry>)
    | SampleItem(sample: Sample)
    | PointerItem(position: int)

  /** An item and the bytes it takes, padding and type codes included. */
  datatype Placed = Placed(item: Item, size: nat)

  /** A file by the positions at which its items start. */
  type File = map<nat, Placed>

  // ---------------------------------------------------------------------------------------------
  // What is recorded

  function ChannelOf(s: Sample): (nat, nat) {
    (s.source, s.topic)
  }

  /** The last sequence number of a channel among the first n samples. */
  function LastSeqNum(log: seq<Sample>, channel: (nat, nat), n: nat): nat
    requires n <= |log|
  {
    if n == 0 then 0
    else if ChannelOf(log[n - 1]) == channel then log[n - 1].seqNum
    else LastSeqNum(log, channel, n - 1)
  }

  /** Sample i is stored in full: the first of its channel, or one with a higher sequence number. */
  predicate IsFull(log: seq<Sample>, i: nat)
    requires i < |log|
    decreases i, 1
  {
    || LastFull(log, ChannelOf(log[i]), i).None?
    || log[i].seqNum > LastSeqNum(log, ChannelOf(log[i]), i)
  }

  /** The last sample of a channel that is stored in full, among the first n. */
  function LastFull(log: seq<Sample>, channel: (nat, nat), n: nat): (r: Option<nat>)
    requires n <= |log|
    ensures r.Some? ==> r.value < n && ChannelOf(log[r.value]) == channel
    ensures r.None? ==> forall j: nat :: j < n ==> ChannelOf(log[j]) != channel
    decreases n, 0
  {
    if n == 0 then None
    else if ChannelOf(log[n - 1]) == channel && IsFull(log, n - 1) then Some(n - 1)
    else LastFull(log, channel, n - 1)
  }

  /** The sample that is found when entry i is read. */
  function Stored(log: seq<Sample>, i: nat): (s: Sample)
    requires i < |log|
    ensures ChannelOf(s) == ChannelOf(log[i])
  {
    log[LastFull(log, ChannelOf(log[i]), i + 1).value]
  }

  /** Times never go back. */
  function TimeOf(log: seq<Sample>, n: nat): int
    requires n <= |log|
  {
    if n == 0 then 0
    else if log[n - 1].recvTime < TimeOf(log, n - 1) then TimeOf(log, n - 1)
    else log[n - 1].recvTime
  }

  /** The first time that is not 0; 0 stands for no time yet. */
  function BeginOf(log: seq<Sample>, n: nat): int
    requires n <= |log|
  {
    if n == 0 then 0
    else if BeginOf(log, n - 1) == 0 then TimeOf(log, n)
    else BeginOf(log, n - 1)
  }

  lemma {:induction false} TimesGrow(log: seq<Sample>, i: nat, j: nat)
    requires i <= j <= |log|
    ensures TimeOf(log, i) <= TimeOf(log, j)
    decreases j - i
  {
    if i < j {
      TimesGrow(log, i, j - 1);
    }
  }

  /** More samples change nothing about earlier ones. */
  lemma {:induction false} Earlier(log: seq<Sample>, s: Sample, channel: (nat, nat), n: nat)
    requires n <= |log|
    ensures LastSeqNum(log + [s], channel, n) == LastSeqNum(log, channel, n)
    ensures LastFull(log + [s], channel, n) == LastFull(log, channel, n)
    ensures TimeOf(log + [s], n) == TimeOf(log, n) && BeginOf(log + [s], n) == BeginOf(log, n)
    decreases n
  {
    if n > 0 {
      Earlier(log, s, channel, n - 1);
      Earlier(log, s, ChannelOf(log[n - 1]), n - 1);
    }
  }

  lemma {:induction false} EarlierStored(log: seq<Sample>, s: Sample, i: nat)
    requires i < |log|
    ensures Stored(log + [s], i) == Stored(log, i)
  {
    Earlier(log, s, ChannelOf(log[i]), i + 1);
  }

  /** On one channel sequence numbers do not go back, and equal numbers mean equal values. */
  predicate Resent(log: seq<Sample>) {
    forall i, j :: 0 <= i < j < |log| && ChannelOf(log[i]) == ChannelOf(log[j]) ==>
      && 0 < log[i].seqNum <= log[j].seqNum
      && (log[i].seqNum == log[j].seqNum ==> log[i].value == log[j].value)
  }

  /** Then every entry reads back with its own sequence number and value. */
  lemma {:induction false} ResentIsStored(log: seq<Sample>, i: nat)
    requires Resent(log) && i < |log|
    ensures Stored(log, i).seqNum == log[i].seqNum && Stored(log, i).value == log[i].value
  {
    FullHasLastSeqNum(log, ChannelOf(log[i]), i + 1);
  }

  lemma {:induction false} FullHasLastSeqNum(log: seq<Sample>, channel: (nat, nat), n: nat)
    requires Resent(log) && n <= |log|
    ensures var full := LastFull(log, channel, n); full.Some? ==> log[full.value].seqNum == LastSeqNum(log, channel, n)
  {
    if n > 0 {
      FullHasLastSeqNum(log, channel, n - 1);
    }
  }

  /**
   A sample is stored in full exactly if it is the first of its channel, or its number is above that of the
   sample before it on the channel.
   */
  lemma {:induction false} FullExactly(log: seq<Sample>, i: nat)
    requires i < |log|
    ensures IsFull(log, i) <==>
            forall j: nat :: j < i && IsLast(log, ChannelOf(log[i]), j, i) ==> log[j].seqNum < log[i].seqNum
  {
    var c := ChannelOf(log[i]);
    FirstIsFull(log, c, i);
    forall j: nat | j < i && IsLast(log, c, j, i)
      ensures LastSeqNum(log, c, i) == log[j].seqNum
    {
      LastSeqNumIs(log, c, j, i);
    }
    if LastFull(log, c, i).Some? {
      var j: nat :| j < i && ChannelOf(log[j]) == c;
      var last := LastExists(log, c, j, i);
    }
  }

  lemma {:induction false} LastSeqNumIs(log: seq<Sample>, c: (nat, nat), j: nat, n: nat)
    requires j < n <= |log| && IsLast(log, c, j, n)
    ensures LastSeqNum(log, c, n) == log[j].seqNum
  {
    if j < n - 1 {
      LastSeqNumIs(log, c, j, n - 1);
    }
  }

  /** A channel that has a sample has a last one. */
  lemma {:induction false} LastExists(log: seq<Sample>, c: (nat, nat), j: nat, n: nat) returns (last: nat)
    requires j < n <= |log| && ChannelOf(log[j]) == c
    ensures last < n && IsLast(log, c, last, n)
    decreases n
  {
    if ChannelOf(log[n - 1]) == c {
      last := n - 1;
    } else {
      last := LastExists(log, c, j, n - 1);
    }
  }

  /** Sample j is the last one of a channel among the first n. */
  predicate IsLast(log: seq<Sample>, c: (nat, nat), j: nat, n: nat)
    requires j < n <= |log|
  {
    ChannelOf(log[j]) == c && forall k: nat :: j < k < n ==> ChannelOf(log[k]) != c
  }

  lemma {:induction false} FirstIsFull(log: seq<Sample>, c: (nat, nat), n: nat)
    requires n <= |log|
    ensures LastFull(log, c, n).None? <==> forall j: nat :: j < n ==> ChannelOf(log[j]) != c
  {
    if n > 0 {
      FirstIsFull(log, c, n - 1);
    }
  }

  /** What is read for entry i is the last sample of its channel, up to it, that was stored in full. */
  lemma {:induction false} StoredExactly(log: seq<Sample>, i: nat, k: nat)
    requires k <= i < |log| && ChannelOf(log[k]) == ChannelOf(log[i]) && IsFull(log, k)
    requires forall j: nat :: k < j <= i && ChannelOf(log[j]) == ChannelOf(log[i]) ==> !IsFull(log, j)
    ensures Stored(log, i) == log[k]
  {
    LastFullIs(log, ChannelOf(log[i]), k, i + 1);
  }

  lemma {:induction false} LastFullIs(log: seq<Sample>, c: (nat, nat), k: nat, n: nat)
    requires k < n <= |log| && ChannelOf(log[k]) == c && IsFull(log, k)
    requires forall j: nat :: k < j < n && ChannelOf(log[j]) == c ==> !IsFull(log, j)
    ensures LastFull(log, c, n) == Some(k)
  {
    hide IsFull;
    if k < n - 1 {
      LastFullIs(log, c, k, n - 1);
    }
  }

  /** The recorded time is the latest so far, but not before 0. */
  lemma {:induction false} TimeIsLatest(log: seq<Sample>, n: nat)
    requires n <= |log|
    ensures TimeOf(log, n) >= 0 && forall j: nat :: j < n ==> log[j].recvTime <= TimeOf(log, n)
    ensures TimeOf(log, n) == 0 || exists j: nat :: j < n && TimeOf(log, n) == log[j].recvTime
  {
    if n > 0 {
      TimeIsLatest(log, n - 1);
    }
  }

  /** A recording begins with its first sample that has a time above 0. */
  lemma {:induction false} BeginsWith(log: seq<Sample>, n: nat, i: nat)
    requires i < n <= |log| && log[i].recvTime > 0 && forall j: nat :: j < i ==> log[j].recvTime <= 0
    ensures BeginOf(log, n) == log[i].recvTime
    decreases n
  {
    if i == n - 1 {
      NoTimeYet(log, i);
    } else {
      BeginsWith(log, n - 1, i);
    }
  }

  lemma {:induction false} NoTimeYet(log: seq<Sample>, n: nat)
    requires n <= |log| && forall j: nat :: j < n ==> log[j].recvTime <= 0
    ensures TimeOf(log, n) == 0 && BeginOf(log, n) == 0
  {
    if n > 0 {
      NoTimeYet(log, n - 1);
    }
  }

  // ---------------------------------------------------------------------------------------------
  // Files

  /** A recording: where its blocks are, at which entry each starts, the entries and their samples. */
  datatype Recording = Recording(
    blockSize: nat, indexSize: nat, blocks: seq<nat>, starts: seq<nat>, entries: seq<Entry>, samples: seq<Sample>)

  predicate Shaped(r: Recording): (b: bool)
    ensures b ==> |r.blocks| == |r.starts| > 0 && |r.samples| == |r.entries|
  {
    && r.blockSize > 0 && |r.blocks| == |r.starts| > 0 && r.starts[0] == 0 && |r.samples| == |r.entries|
    && (forall k: nat :: 0 < k < |r.starts| ==> r.starts[k] == r.starts[k - 1] + r.blockSize)
    && (forall j, k :: 0 <= j < k < |r.blocks| ==> r.blocks[j] < r.blocks[k])
    && r.starts[|r.starts| - 1] <= |r.entries| <= r.starts[|r.starts| - 1] + r.blockSize
    && forall i: nat :: i < |r.entries| ==> r.entries[i].pos >= 0
  }

  lemma {:induction false} StartsApart(r: Recording, j: nat, k: nat)
    requires Shaped(r) && j < k < |r.starts|
    ensures r.starts[j] + r.blockSize <= r.starts[k]
    decreases k
  {
    if j < k - 1 {
      StartsApart(r, j, k - 1);
    }
  }

  function Prev(r: Recording, k: nat): int
    requires k < |r.blocks|
  {
    if k == 0 then -1 else r.blocks[k - 1]
  }

  function Next(r: Recording, k: nat): int
    requires k < |r.blocks|
  {
    if k + 1 < |r.blocks| then r.blocks[k + 1] else -1
  }

  /** The index of block k, filled up with unused entries. */
  function IndexOf(r: Recording, k: nat): (index: seq<Entry>)
    requires k < |r.starts|
    ensures |index| == r.blockSize
  {
    seq(r.blockSize, j requires 0 <= j < r.blockSize =>
      if r.starts[k] + j < |r.entries| then r.entries[r.starts[k] + j] else UNUSED)
  }

  predicate BlockOnFile(file: File, r: Recording, k: nat)
    requires k < |r.blocks| == |r.starts|
  {
    && r.blocks[k] in file
    && file[r.blocks[k]] == Placed(IndexItem(Prev(r, k), Next(r, k), IndexOf(r, k)), r.indexSize)
  }

  /** Reading at a position gives the sample, directly or through one pointer. */
  predicate Resolves(file: File, pos: int, s: Sample) {
    && 0 <= pos && pos in file
    && (file[pos].item == SampleItem(s)
        || (file[pos].item.PointerItem?
            && var target := file[pos].item.position;
               0 <= target && target in file && file[target].item == SampleItem(s)))
  }

  predicate EntryOnFile(file: File, r: Recording, i: nat)
    requires i < |r.entries| == |r.samples|
  {
    Resolves(file, r.entries[i].pos, r.samples[i])
  }

  /** Within a block items follow each other without gaps, the first right after the index. */
  predicate Adjacent(file: File, r: Recording, i: nat)
    requires i < |r.entries| && |r.blocks| == |r.starts|
  {
    && (forall k: nat :: k < |r.starts| && r.starts[k] == i ==> r.entries[i].pos == r.blocks[k] + r.indexSize)
    && (i > 0 && (forall k: nat :: k < |r.starts| ==> r.starts[k] != i) ==>
          r.entries[i - 1].pos in file && r.entries[i].pos == r.entries[i - 1].pos + file[r.entries[i - 1].pos].size)
  }

  /** Pointers point back. */
  predicate PointersBack(file: File) {
    forall p :: p in file && file[p].item.PointerItem? ==> 0 <= file[p].item.position < p
  }

  /** Every block but the first starts where the last entry before it ends. */
  predicate BlocksFollow(file: File, r: Recording)
    requires Shaped(r)
  {
    forall k: nat :: 0 < k < |r.starts| ==> FollowsEntry(file, r, k)
  }

  predicate FollowsEntry(file: File, r: Recording, k: nat)
    requires 0 < k < |r.starts| == |r.blocks|
  {
    && 0 < r.starts[k] <= |r.entries|
    && var pos := r.entries[r.starts[k] - 1].pos;
       pos in file && r.blocks[k] == pos + file[pos].size
  }

  /** Nothing comes after the last entry, unless it is an empty block. */
  predicate EndsThere(file: File, r: Recording)
    requires Shaped(r)
  {
    r.starts[|r.starts| - 1] < |r.entries| ==>
      var pos := r.entries[|r.entries| - 1].pos;
      pos in file && pos + file[pos].size !in file
  }

  /** A finished file holds a recording: every block and entry, and the header before the first block. */
  predicate Holds(file: File, r: Recording) {
    && Shaped(r) && |r.entries| < r.starts[|r.starts| - 1] + r.blockSize
    && BlocksFollow(file, r) && EndsThere(file, r)
    && PointersBack(file) && 0 in file && file[0].item.HeaderItem? && file[0].size == r.blocks[0]
    && (forall k: nat :: k < |r.blocks| ==> BlockOnFile(file, r, k))
    && (forall i: nat :: i < |r.entries| ==> EntryOnFile(file, r, i) && Adjacent(file, r, i))
  }
}

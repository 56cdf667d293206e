/** `RecordWriter`: appends samples, patches index blocks in place and keeps the header up to date. */
module Writer {
  import opened Bytes
  import opened Wire
  import opened Recordings
  import opened IndexBlocks

  datatype Channel = Channel(seqNum: nat, outputPos: int)

  const NEW_CHANNEL := Channel(0, -1)

  // ---------------------------------------------------------------------------------------------
  // The file while it is being written

  /** Items end before the end of the file, and none runs over another one. */
  predicate Bounded(file: File, end: nat) {
    && PointersBack(file)
    && (forall p :: p in file ==> file[p].size > 0 && p + file[p].size <= end)
    && forall p, q :: p in file && q in file && p < q ==> p + file[p].size <= q
  }

  /** All blocks but the last are final; the last is there. */
  predicate BlocksOnFile(file: File, r: Recording)
    requires Shaped(r)
  {
    var last := r.blocks[|r.blocks| - 1];
    && (forall k: nat :: k < |r.blocks| - 1 ==> BlockOnFile(file, r, k))
    && last in file && file[last].item.IndexItem? && file[last].size == r.indexSize
  }

  predicate EntriesOnFile(file: File, r: Recording)
    requires Shaped(r)
  {
    forall i: nat :: i < |r.entries| ==> EntryOnFile(file, r, i) && Adjacent(file, r, i)
  }

  predicate FullsOnFile(file: File, r: Recording, log: seq<Sample>)
    requires Shaped(r) && |log| == |r.entries|
  {
    forall i: nat :: i < |log| && IsFull(log, i) ==>
      r.entries[i].pos in file && file[r.entries[i].pos].item == SampleItem(log[i])
  }

  /** Where the next item goes: right after the last one. */
  predicate EndsAt(file: File, r: Recording, end: nat)
    requires Shaped(r)
  {
    var last := |r.blocks| - 1;
    if r.starts[last] == |r.entries| then end == r.blocks[last] + r.indexSize
    else
      var pos := r.entries[|r.entries| - 1].pos;
      pos in file && end == pos + file[pos].size
  }

  predicate HeaderOnFile(file: File, headerSize: nat) {
    0 in file && file[0].item.HeaderItem? && file[0].size == headerSize
  }

  predicate Written(file: File, r: Recording, log: seq<Sample>, end: nat) {
    && Shaped(r) && |log| == |r.entries|
    && Bounded(file, end) && BlocksOnFile(file, r) && EntriesOnFile(file, r) && FullsOnFile(file, r, log)
    && EndsAt(file, r, end) && HeaderOnFile(file, r.blocks[0]) && BlocksFollow(file, r)
  }

  function OneMore(r: Recording, e: Entry, s: Sample): Recording {
    r.(entries := r.entries + [e], samples := r.samples + [s])
  }

  /** Finished blocks do not change when entries are added. */
  lemma {:induction false} FinishedIndex(r: Recording, e: Entry, s: Sample, k: nat)
    requires Shaped(r) && k < |r.starts| - 1
    ensures IndexOf(OneMore(r, e, s), k) == IndexOf(r, k)
  {
    StartsApart(r, k, |r.starts| - 1);
  }

  lemma {:induction false} StillResolves(file: File, p: int, s: Sample, at: nat, placed: Placed)
    requires Resolves(file, p, s)
    requires at in file ==> !file[at].item.SampleItem? && !file[at].item.PointerItem?
    ensures Resolves(file[at := placed], p, s) && p != at
  {
  }

  /** An entry is still there after an index block has been written, again or at the end. */
  lemma {:induction false} KeptEntry(file: File, r: Recording, at: nat, placed: Placed, i: nat)
    requires Shaped(r) && EntriesOnFile(file, r) && i < |r.entries|
    requires at in file ==> !file[at].item.SampleItem? && !file[at].item.PointerItem?
    ensures EntryOnFile(file[at := placed], r, i) && Adjacent(file[at := placed], r, i) && r.entries[i].pos != at
  {
    hide Shaped;
    assert EntryOnFile(file, r, i) && Adjacent(file, r, i);
    StillResolves(file, r.entries[i].pos, r.samples[i], at, placed);
    if i > 0 {
      assert EntryOnFile(file, r, i - 1);
      StillResolves(file, r.entries[i - 1].pos, r.samples[i - 1], at, placed);
    }
  }

  /** What the new item at the end of the file stands for. */
  predicate StandsFor(file: File, item: Item, s: Sample) {
    || item == SampleItem(s)
    || (item.PointerItem? && 0 <= item.position && item.position in file && file[item.position].item == SampleItem(s))
  }

  lemma {:induction false} AppendEntries(file: File, r: Recording, end: nat, placed: Placed, e: Entry, s: Sample)
    requires Shaped(r) && Bounded(file, end) && EntriesOnFile(file, r) && EndsAt(file, r, end)
    requires |r.entries| < r.starts[|r.starts| - 1] + r.blockSize
    requires e.pos == end && placed.size > 0 && StandsFor(file, placed.item, s)
    ensures Shaped(OneMore(r, e, s)) && EntriesOnFile(file[end := placed], OneMore(r, e, s))
  {
    hide Adjacent, EntryOnFile, Shaped, EndsAt;
    assert Shaped(OneMore(r, e, s)) by {
      OneMoreShaped(r, e, s);
    }
    var r', file' := OneMore(r, e, s), file[end := placed];
    assert end !in file;
    forall i: nat | i < |r'.entries|
      ensures EntryOnFile(file', r', i) && Adjacent(file', r', i)
    {
      if i < |r.entries| {
        KeptEntry(file, r, end, placed, i);
        SameEntry(file', r, e, s, i);
      } else {
        NewEntryAdjacent(file, r, end, placed, e, s);
        NewEntryOnFile(file, r, end, placed, e, s);
      }
    }
  }

  /** Blocks still follow their entries when something else is written. */
  lemma {:induction false} KeptBlocks(file: File, r: Recording, at: nat, placed: Placed)
    requires Shaped(r) && EntriesOnFile(file, r) && BlocksFollow(file, r)
    requires at in file ==> !file[at].item.SampleItem? && !file[at].item.PointerItem?
    ensures BlocksFollow(file[at := placed], r)
  {
    hide EntryOnFile, Adjacent, Shaped;
    var file' := file[at := placed];
    forall k: nat | 0 < k < |r.starts|
      ensures FollowsEntry(file', r, k)
    {
      assert FollowsEntry(file, r, k);
      KeptEntry(file, r, at, placed, r.starts[k] - 1);
    }
  }

  lemma {:induction false} SameBlocks(file: File, r: Recording, e: Entry, s: Sample)
    requires Shaped(r) && Shaped(OneMore(r, e, s)) && BlocksFollow(file, r)
    ensures BlocksFollow(file, OneMore(r, e, s))
  {
    hide Shaped;
    var r' := OneMore(r, e, s);
    forall k: nat | 0 < k < |r'.starts|
      ensures FollowsEntry(file, r', k)
    {
      assert FollowsEntry(file, r, k);
    }
  }

  lemma {:induction false} NextBlockFollows(file: File, r: Recording, end: nat)
    requires Shaped(r) && BlocksFollow(file, r) && EndsAt(file, r, end)
    requires |r.entries| == r.starts[|r.starts| - 1] + r.blockSize && Shaped(OneMoreBlock(r, end))
    ensures BlocksFollow(file, OneMoreBlock(r, end))
  {
    var r' := OneMoreBlock(r, end);
    forall k: nat | 0 < k < |r'.starts|
      ensures FollowsEntry(file, r', k)
    {
      if k < |r.starts| {
        assert FollowsEntry(file, r, k);
      }
    }
  }

  lemma OneMoreShaped(r: Recording, e: Entry, s: Sample)
    requires Shaped(r) && |r.entries| < r.starts[|r.starts| - 1] + r.blockSize && e.pos >= 0
    ensures Shaped(OneMore(r, e, s)) && |r.samples| == |r.entries| && |r.blocks| == |r.starts|
  {
  }

  lemma SameEntry(file: File, r: Recording, e: Entry, s: Sample, i: nat)
    requires |r.entries| == |r.samples| && i < |r.entries| && |r.blocks| == |r.starts|
    requires EntryOnFile(file, r, i) && Adjacent(file, r, i)
    ensures EntryOnFile(file, OneMore(r, e, s), i) && Adjacent(file, OneMore(r, e, s), i)
  {
  }

  lemma NewEntryOnFile(file: File, r: Recording, end: nat, placed: Placed, e: Entry, s: Sample)
    requires StandsFor(file, placed.item, s) && end !in file && e.pos == end && |r.entries| == |r.samples|
    ensures EntryOnFile(file[end := placed], OneMore(r, e, s), |r.entries|)
  {
  }

  lemma {:induction false} NewEntryAdjacent(file: File, r: Recording, end: nat, placed: Placed, e: Entry, s: Sample)
    requires Shaped(r) && EndsAt(file, r, end) && end !in file
    requires e.pos == end
    ensures Adjacent(file[end := placed], OneMore(r, e, s), |r.entries|)
  {
    var n, last := |r.entries|, |r.starts| - 1;
    forall k: nat | k < |r.starts| && r.starts[k] == n
      ensures end == r.blocks[k] + r.indexSize
    {
      if k < last {
        StartsApart(r, k, |r.starts| - 1);
      }
    }
  }

  lemma {:induction false} AppendBlocks(file: File, r: Recording, end: nat, placed: Placed, e: Entry, s: Sample)
    requires Shaped(r) && Shaped(OneMore(r, e, s)) && Bounded(file, end) && BlocksOnFile(file, r)
    ensures BlocksOnFile(file[end := placed], OneMore(r, e, s))
  {
    var file', r' := file[end := placed], OneMore(r, e, s);
    forall k: nat | k < |r.blocks| - 1
      ensures BlockOnFile(file', r', k)
    {
      assert BlockOnFile(file, r, k);
      FinishedIndex(r, e, s, k);
    }
  }

  /** One more sample in the log. */
  lemma {:induction false} LogStep(log: seq<Sample>, s: Sample)
    ensures var c, n, log' := ChannelOf(s), |log|, log + [s];
            && (IsFull(log', n) <==> LastFull(log, c, n).None? || s.seqNum > LastSeqNum(log, c, n))
            && TimeOf(log', n + 1) == (if s.recvTime < TimeOf(log, n) then TimeOf(log, n) else s.recvTime)
            && BeginOf(log', n + 1) == (if BeginOf(log, n) == 0 then TimeOf(log', n + 1) else BeginOf(log, n))
            && Stored(log', n) == if IsFull(log', n) then s else log[LastFull(log, c, n).value]
  {
    Earlier(log, s, ChannelOf(s), |log|);
  }

  lemma {:induction false} ChannelStep(log: seq<Sample>, s: Sample, c: (nat, nat))
    ensures var n, log' := |log|, log + [s];
            && LastSeqNum(log', c, n + 1) == (if c == ChannelOf(s) then s.seqNum else LastSeqNum(log, c, n))
            && LastFull(log', c, n + 1) ==
                 if c == ChannelOf(s) && IsFull(log', n) then Some(n) else LastFull(log, c, n)
  {
    Earlier(log, s, c, |log|);
  }

  /** The file after writing a sample, in full or as a pointer to the last full one of its channel. */
  lemma {:induction false} AppendSample(
      file: File, r: Recording, log: seq<Sample>, end: nat, placed: Placed, e: Entry, s: Sample)
    requires Written(file, r, log, end) && |r.entries| < r.starts[|r.starts| - 1] + r.blockSize
    requires e.pos == end && placed.size > 0
    requires var n, full := |log|, LastFull(log, ChannelOf(s), |log|);
             placed.item == if IsFull(log + [s], n) || full.None? then SampleItem(s)
                            else PointerItem(r.entries[full.value].pos)
    ensures Written(file[end := placed], OneMore(r, e, Stored(log + [s], |log|)), log + [s], end + placed.size)
  {
    hide IsFull, LastFull, LastSeqNum, EntryOnFile, Adjacent, BlockOnFile, IndexOf, Shaped;
    assert Shaped(r);
    var n, log', full := |log|, log + [s], LastFull(log, ChannelOf(s), |log|);
    LogStep(log, s);
    if full.Some? && !IsFull(log', n) {
      LastFullIsFull(log, ChannelOf(s), n);
    }
    var stored := Stored(log', n);
    AppendEntries(file, r, end, placed, e, stored);
    AppendBlocks(file, r, end, placed, e, stored);
    AppendFulls(file, r, log, end, placed, e, s, stored);
    AppendEnds(file, r, end, placed, e, stored);
    KeptBlocks(file, r, end, placed);
    SameBlocks(file[end := placed], r, e, stored);
  }

  lemma {:induction false} LastFullIsFull(log: seq<Sample>, c: (nat, nat), n: nat)
    requires n <= |log|
    ensures LastFull(log, c, n).Some? ==> IsFull(log, LastFull(log, c, n).value)
  {
    if n > 0 {
      LastFullIsFull(log, c, n - 1);
    }
  }

  lemma {:induction false} AppendFulls(
      file: File, r: Recording, log: seq<Sample>, end: nat, placed: Placed, e: Entry, s: Sample, stored: Sample)
    requires Shaped(r) && Shaped(OneMore(r, e, stored)) && |log| == |r.entries|
    requires Bounded(file, end) && FullsOnFile(file, r, log) && e.pos == end
    requires IsFull(log + [s], |log|) ==> placed.item == SampleItem(s)
    ensures FullsOnFile(file[end := placed], OneMore(r, e, stored), log + [s])
  {
    hide IsFull, Shaped;
    StillFull(log, s);
    var file', r' := file[end := placed], OneMore(r, e, stored);
    forall i: nat | i < |log + [s]| && IsFull(log + [s], i)
      ensures r'.entries[i].pos in file' && file'[r'.entries[i].pos].item == SampleItem((log + [s])[i])
    {
      assert end !in file;
      if i < |log| {
        assert (log + [s])[i] == log[i] && r'.entries[i] == r.entries[i];
      }
    }
  }

  lemma {:induction false} StillFull(log: seq<Sample>, s: Sample)
    ensures forall i: nat :: i < |log| ==> IsFull(log + [s], i) == IsFull(log, i)
  {
    hide LastFull, LastSeqNum;
    forall i: nat | i < |log|
      ensures IsFull(log + [s], i) == IsFull(log, i)
    {
      Earlier(log, s, ChannelOf(log[i]), i);
    }
  }

  lemma {:induction false} AppendEnds(file: File, r: Recording, end: nat, placed: Placed, e: Entry, s: Sample)
    requires Shaped(r) && Shaped(OneMore(r, e, s)) && Bounded(file, end) && HeaderOnFile(file, r.blocks[0])
    requires e.pos == end && placed.size > 0 && StandsFor(file, placed.item, s)
    ensures EndsAt(file[end := placed], OneMore(r, e, s), end + placed.size)
    ensures Bounded(file[end := placed], end + placed.size) && HeaderOnFile(file[end := placed], r.blocks[0])
  {
  }

  /** The recording with a new, empty block at the end. */
  function OneMoreBlock(r: Recording, end: nat): Recording {
    r.(blocks := r.blocks + [end], starts := r.starts + [|r.entries|])
  }

  /** The index of the last block on file, as it is in memory. */
  function WithIndex(file: File, r: Recording, next: int): File
    requires Shaped(r)
  {
    var last := |r.blocks| - 1;
    file[r.blocks[last] := Placed(IndexItem(Prev(r, last), next, IndexOf(r, last)), r.indexSize)]
  }

  /** Writing an index block again changes nothing else. */
  lemma {:induction false} RewriteIndex(file: File, r: Recording, log: seq<Sample>, end: nat, next: int)
    requires Written(file, r, log, end) && r.blocks[0] > 0 && r.indexSize > 0
    ensures Written(WithIndex(file, r, next), r, log, end)
  {
    hide IsFull, IndexOf, EntryOnFile, Adjacent;
    var file' := WithIndex(file, r, next);
    var last := r.blocks[|r.blocks| - 1];
    forall i: nat | i < |r.entries|
      ensures EntryOnFile(file', r, i) && Adjacent(file', r, i) && r.entries[i].pos != last
    {
      KeptEntry(file, r, last, file'[last], i);
    }
    KeptBlocks(file, r, last, file'[last]);
    forall k: nat | k < |r.blocks| - 1
      ensures BlockOnFile(file', r, k)
    {
      assert BlockOnFile(file, r, k);
    }
    assert EndsAt(file', r, end);
  }

  /** Closing a full block and starting the next one. */
  lemma {:induction false} AppendBlock(file: File, r: Recording, log: seq<Sample>, end: nat, placed: Placed)
    requires Written(file, r, log, end) && r.indexSize > 0 && r.blocks[0] > 0
    requires |r.entries| == r.starts[|r.starts| - 1] + r.blockSize
    requires BlockOnFile(file, OneMoreBlock(r, end), |r.blocks| - 1)
    requires placed.item.IndexItem? && placed.size == r.indexSize
    ensures Written(file[end := placed], OneMoreBlock(r, end), log, end + r.indexSize)
  {
    hide IsFull, IndexOf;
    var file', r' := file[end := placed], OneMoreBlock(r, end);
    assert end !in file;
    forall k: nat | k < |r.blocks|
      ensures BlockOnFile(file', r', k)
    {
      if k < |r.blocks| - 1 {
        assert BlockOnFile(file, r, k);
        SameIndex(r, end, k);
      }
    }
    BlockEntries(file, r, end, placed);
    KeptBlocks(file, r, end, placed);
    NextBlockFollows(file', r, end);
  }

  lemma SameIndex(r: Recording, end: nat, k: nat)
    requires |r.blocks| == |r.starts| && k < |r.starts|
    ensures IndexOf(OneMoreBlock(r, end), k) == IndexOf(r, k)
  {
  }

  lemma {:induction false} BlockEntries(file: File, r: Recording, end: nat, placed: Placed)
    requires Shaped(r) && EntriesOnFile(file, r) && end !in file && |r.starts| > 0
    requires |r.entries| == r.starts[|r.starts| - 1] + r.blockSize
    requires Shaped(OneMoreBlock(r, end))
    ensures EntriesOnFile(file[end := placed], OneMoreBlock(r, end))
  {
    var file', r' := file[end := placed], OneMoreBlock(r, end);
    forall i: nat | i < |r.entries|
      ensures EntryOnFile(file', r', i) && Adjacent(file', r', i)
    {
      KeptEntry(file, r, end, placed, i);
      assert forall k: nat :: k < |r.starts| ==> r'.starts[k] == r.starts[k];
    }
  }

  // ---------------------------------------------------------------------------------------------
  // The object

  ghost predicate ChannelsKnown(log: seq<Sample>, entries: seq<Entry>, channels: map<(nat, nat), Channel>)
    requires |entries| == |log|
  {
    forall c :: ChannelKnown(log, entries, c, if c in channels then channels[c] else NEW_CHANNEL)
  }

  /** The last sequence number of a channel, and where its last full sample is. */
  predicate ChannelKnown(log: seq<Sample>, entries: seq<Entry>, c: (nat, nat), channel: Channel)
    requires |entries| == |log|
  {
    var full := LastFull(log, c, |log|);
    && channel.seqNum == LastSeqNum(log, c, |log|)
    && channel.outputPos == if full.None? then -1 else entries[full.value].pos
  }

  lemma {:induction false} ChannelsStep(
      log: seq<Sample>, entries: seq<Entry>, channels: map<(nat, nat), Channel>, s: Sample, e: Entry, channel: Channel)
    requires |entries| == |log| && ChannelsKnown(log, entries, channels)
    requires channel.seqNum == s.seqNum
    requires var known := if ChannelOf(s) in channels then channels[ChannelOf(s)] else NEW_CHANNEL;
             channel.outputPos == if IsFull(log + [s], |log|) then e.pos else known.outputPos
    ensures ChannelsKnown(log + [s], entries + [e], channels[ChannelOf(s) := channel])
  {
    var log', entries', channels' := log + [s], entries + [e], channels[ChannelOf(s) := channel];
    forall c
      ensures ChannelKnown(log', entries', c, if c in channels' then channels'[c] else NEW_CHANNEL)
    {
      assert ChannelKnown(log, entries, c, if c in channels then channels[c] else NEW_CHANNEL);
      ChannelStep(log, s, c);
    }
  }

  /** The samples and times a recording of this log has. */
  predicate Records(r: Recording, log: seq<Sample>) {
    && |r.entries| == |r.samples| == |log|
    && forall i: nat :: i < |log| ==> r.samples[i] == Stored(log, i) && r.entries[i].time == TimeOf(log, i + 1)
  }

  lemma {:induction false} RecordsStep(r: Recording, log: seq<Sample>, e: Entry, s: Sample)
    requires Records(r, log) && e.time == TimeOf(log + [s], |log| + 1)
    ensures Records(OneMore(r, e, Stored(log + [s], |log|)), log + [s])
  {
    var log' := log + [s];
    var r' := OneMore(r, e, Stored(log', |log|));
    forall i: nat | i < |log'|
      ensures r'.samples[i] == Stored(log', i) && r'.entries[i].time == TimeOf(log', i + 1)
    {
      if i < |log| {
        EarlierStored(log, s, i);
        Earlier(log, s, ChannelOf(s), i + 1);
      }
    }
  }

  /** Sample i is at that position: in full, or as a pointer to the last one of its channel that is. */
  predicate StoredAt(file: File, r: Recording, log: seq<Sample>, i: nat, pos: nat, size: nat)
    requires i < |log|
  {
    && i < |r.entries| && r.entries[i].pos == pos && pos in file && file[pos].size == size
    && if IsFull(log, i) then file[pos].item == SampleItem(log[i])
       else
         var full := LastFull(log, ChannelOf(log[i]), i);
         full.Some? && full.value < |r.entries| && file[pos].item == PointerItem(r.entries[full.value].pos)
  }

  lemma {:induction false} JustStored(
      file: File, r: Recording, log: seq<Sample>, end: nat, channels: map<(nat, nat), Channel>, s: Sample,
      placed: Placed, e: Entry)
    requires Written(file, r, log, end) && ChannelsKnown(log, r.entries, channels) && e.pos == end
    requires var known := if ChannelOf(s) in channels then channels[ChannelOf(s)] else NEW_CHANNEL;
             placed.item == if IsFull(log + [s], |log|) then SampleItem(s) else PointerItem(known.outputPos)
    ensures StoredAt(file[end := placed], OneMore(r, e, Stored(log + [s], |log|)), log + [s], |log|, end, placed.size)
    ensures end !in file && r.blocks[|r.blocks| - 1] in file
  {
    hide LastSeqNum, Stored, IndexOf;
    Decision(log, r.entries, channels, s);
    Earlier(log, s, ChannelOf(s), |log|);
  }

  /** The writer's test for what to store in full. */
  lemma {:induction false} Decision(
      log: seq<Sample>, entries: seq<Entry>, channels: map<(nat, nat), Channel>, s: Sample)
    requires |entries| == |log| && ChannelsKnown(log, entries, channels)
    requires forall i: nat :: i < |entries| ==> entries[i].pos >= 0
    ensures var c := ChannelOf(s);
            var channel, full := if c in channels then channels[c] else NEW_CHANNEL, LastFull(log, c, |log|);
            && (s.seqNum > channel.seqNum || channel.outputPos < 0 <==> IsFull(log + [s], |log|))
            && (full.None? <==> channel.outputPos < 0)
            && (full.Some? ==> channel.outputPos == entries[full.value].pos)
  {
    var c := ChannelOf(s);
    assert ChannelKnown(log, entries, c, if c in channels then channels[c] else NEW_CHANNEL);
    LogStep(log, s);
  }

  lemma IndexStep(r: Recording, e: Entry, s: Sample)
    requires Shaped(r)
    ensures var last := |r.starts| - 1;
            var i := |r.entries| - r.starts[last];
            i < r.blockSize ==> IndexOf(OneMore(r, e, s), last) == IndexOf(r, last)[i := e]
  {
  }

  lemma EmptyIndex(r: Recording, end: nat)
    requires Shaped(r)
    ensures var r' := OneMoreBlock(r, end);
            IndexOf(r', |r'.starts| - 1) == seq(r.blockSize, _ => UNUSED)
  {
  }

  class RecordWriter {
    const headerSize: nat
    const blockSize: nat
    const headerStart: nat

    var file: File
    var end: nat
    var prev: int
    var next: int
    var index: seq<Entry>
    var indexPos: nat
    var currPos: nat
    var beginTime: int
    var lastTime: int
    var channels: map<(nat, nat), Channel>

    ghost var log: seq<Sample>
    ghost var rec: Recording

    ghost predicate Open()
      reads this
    {
      && Written(file, rec, log, end) && Records(rec, log) && ChannelsKnown(log, rec.entries, channels)
      && rec.blockSize == blockSize <= MAX_SIZE && rec.indexSize == IndexSize(blockSize) && rec.blocks[0] == headerSize > 0
      && lastTime == TimeOf(log, |log|) && beginTime == BeginOf(log, |log|)
      && var last := |rec.blocks| - 1;
         && currPos == rec.blocks[last] && prev == Prev(rec, last) && next == -1 && index == IndexOf(rec, last)
         && rec.starts[last] + indexPos == |log|
    }

    /** Between calls there is always room in the current block. */
    ghost predicate Valid()
      reads this
    {
      Open() && indexPos < blockSize
    }

    /** Opens a new file; it stays unusable if the header does not fit. */
    constructor (headerSize: nat, blockSize: nat, headerStart: nat, headerBytes: nat)
      requires 0 < blockSize <= MAX_SIZE
      ensures this.headerSize == headerSize && this.blockSize == blockSize && this.headerStart == headerStart
      ensures headerStart + headerBytes + 6 <= headerSize ==> Valid() && log == []
    {
      this.headerSize, this.blockSize, this.headerStart := headerSize, blockSize, headerStart;
      prev, next, index, indexPos, currPos := -1, -1, seq(blockSize, _ => UNUSED), 0, headerSize;
      beginTime, lastTime, channels := 0, 0, map[];
      file := map[
        0 := Placed(HeaderItem(0, 0), headerSize),
        headerSize := Placed(IndexItem(-1, -1, seq(blockSize, _ => UNUSED)), IndexSize(blockSize))];
      end := headerSize + IndexSize(blockSize);
      log := [];
      rec := Recording(blockSize, IndexSize(blockSize), [headerSize], [0], [], []);
    }

    /** `write`: the sample takes `size` bytes, or its pointer does. */
    method Write(sample: Sample, size: nat)
      requires Valid() && size > 0
      modifies this
      ensures Valid() && log == old(log) + [sample]
      ensures StoredAt(file, rec, log, |old(log)|, old(end), size)
    {
      hide IsFull, LastFull, LastSeqNum, Written, ChannelsKnown, Records, Stored, IndexOf, TimeOf, BeginOf, Shaped;
      RoomLeft(file, rec, log, end);
      LogStep(log, sample);
      Decision(log, rec.entries, channels, sample);
      var time := sample.recvTime;
      if time < lastTime {
        time := lastTime;
      }
      var begin := if beginTime == 0 then time else beginTime;
      var entry := Entry(end, time);
      var c := ChannelOf(sample);
      var channel := if c in channels then channels[c] else NEW_CHANNEL;
      var placed;
      if sample.seqNum > channel.seqNum || channel.outputPos < 0 {
        placed := Placed(SampleItem(sample), size);
        channel := channel.(outputPos := entry.pos);
      } else {
        placed := Placed(PointerItem(channel.outputPos), size);
      }
      channel := channel.(seqNum := sample.seqNum);
      JustStored(file, rec, log, end, channels, sample, placed, entry);
      Put(sample, entry, placed, channel, begin);
      if indexPos >= blockSize {
        AddBlock();
      }
    }

    /** Puts the new entry into the index, the new item at the end of the file and the channel into the table. */
    method Put(sample: Sample, entry: Entry, placed: Placed, channel: Channel, begin: int)
      requires Valid() && entry.pos == end && entry.time == TimeOf(log + [sample], |log| + 1)
      requires placed.size > 0 && channel.seqNum == sample.seqNum
      requires begin == BeginOf(log + [sample], |log| + 1)
      requires var known := if ChannelOf(sample) in channels then channels[ChannelOf(sample)] else NEW_CHANNEL;
               if IsFull(log + [sample], |log|) then
                 placed.item == SampleItem(sample) && channel.outputPos == entry.pos
               else placed.item == PointerItem(known.outputPos) && channel.outputPos == known.outputPos
      modifies this
      ensures Open() && log == old(log) + [sample] && indexPos == old(indexPos) + 1
      ensures rec == OneMore(old(rec), entry, Stored(log, |old(log)|)) && currPos == old(currPos)
      ensures file == old(file)[old(end) := placed] && end == old(end) + placed.size
    {
      hide IsFull, LastFull, LastSeqNum, Written, ChannelsKnown, Records, Stored, IndexOf, TimeOf, BeginOf, OneMore, Shaped;
      RoomLeft(file, rec, log, end);
      SampleAdded(file, rec, log, end, channels, placed, entry, sample, channel);
      Assign(sample, entry, placed, channel, begin);
    }

    method Assign(sample: Sample, entry: Entry, placed: Placed, channel: Channel, begin: int)
      requires 0 <= indexPos < |index|
      modifies this
      ensures rec == OneMore(old(rec), entry, Stored(old(log) + [sample], |old(log)|)) && log == old(log) + [sample]
      ensures index == old(index)[old(indexPos) := entry] && indexPos == old(indexPos) + 1
      ensures beginTime == begin && lastTime == entry.time
      ensures file == old(file)[old(end) := placed] && end == old(end) + placed.size
      ensures channels == old(channels)[ChannelOf(sample) := channel]
      ensures prev == old(prev) && next == old(next) && currPos == old(currPos)
    {
      hide *;
      rec, log := OneMore(rec, entry, Stored(log + [sample], |log|)), log + [sample];
      index, indexPos := index[indexPos := entry], indexPos + 1;
      beginTime, lastTime := begin, entry.time;
      file, end := file[end := placed], end + placed.size;
      channels := channels[ChannelOf(sample) := channel];
    }

    /** `add_block`: links the full block to a new one at the end of the file. */
    method AddBlock()
      requires Open() && indexPos == blockSize
      modifies this
      ensures Valid() && log == old(log) && rec.entries == old(rec).entries
      ensures forall p :: p in old(file) && p != old(currPos) && p != old(end) ==> p in file && file[p] == old(file)[p]
    {
      hide Written, ChannelsKnown, Records, IndexOf, TimeOf, BeginOf, OneMoreBlock, Shaped;
      RoomLeft(file, rec, log, end);
      BlockAdded(file, rec, log, end);
      next := end;
      WriteIndex();
      var empty := seq(blockSize, _ => UNUSED);
      rec := OneMoreBlock(rec, end);
      prev, next, index, indexPos := currPos, -1, empty, 0;
      currPos := end;
      WriteIndex();
      end := end + IndexSize(blockSize);
    }

    /** `write_index`: whatever is in the index, it takes exactly the slot of a block. */
    method WriteIndex()
      requires |index| == blockSize <= MAX_SIZE
      modifies this`file
      ensures file == old(file)[currPos := Placed(IndexItem(prev, next, index), IndexSize(blockSize))]
    {
      IndexTakes(prev, next, index);
      var bytes := IndexBytes(prev, next, index);
      file := file[currPos := Placed(IndexItem(prev, next, index), |bytes|)];
    }

    /**
     `write_header`: overwrites the header, which takes `headerBytes` this time, and pads it. It throws
     if less than the six bytes of an empty padding are left; then what the header ran over is lost.
     */
    method WriteHeader(headerBytes: nat) returns (ok: bool)
      requires Valid()
      modifies this`file
      ensures ok == (headerStart + headerBytes + 6 <= headerSize)
      ensures ok ==> Valid()
      ensures ok ==> file == old(file)[0 := Placed(HeaderItem(beginTime, lastTime), headerSize)]
      ensures headerStart + headerBytes <= headerSize ==>
                forall p :: p in old(file) && p != 0 ==> p in file && file[p] == old(file)[p]
      ensures headerStart + headerBytes > headerSize ==> headerSize !in file
    {
      hide IsFull, IndexOf, Records, ChannelsKnown, TimeOf, BeginOf;
      var actual := headerStart + headerBytes;
      ok := actual + 6 <= headerSize;
      var header := HeaderItem(beginTime, lastTime);
      HeaderRewritten(file, rec, log, end, Placed(header, headerSize));
      if ok {
        file := file[0 := Placed(header, headerSize)];
      } else if actual <= headerSize {
        file := file[0 := Placed(header, actual)];
      } else {
        file := (map p | p in file && p >= actual :: file[p])[0 := Placed(header, actual)];
      }
    }

    /** `flush`, and `close`: the file now holds everything that was written. */
    method Flush(headerBytes: nat) returns (ok: bool)
      requires Valid()
      modifies this
      ensures ok == (headerStart + headerBytes + 6 <= headerSize)
      ensures log == old(log)
      ensures ok ==> Valid() && Holds(file, rec) && Records(rec, log)
      ensures ok ==> file[0].item == HeaderItem(BeginOf(log, |log|), TimeOf(log, |log|))
    {
      hide IsFull, IndexOf, Records, ChannelsKnown, TimeOf, BeginOf, Written, Holds;
      RoomLeft(file, rec, log, end);
      RewriteIndex(file, rec, log, end, -1);
      WriteIndex();
      ok := WriteHeader(headerBytes);
      if ok {
        WrittenHolds(file, rec, log, end);
      }
    }
  }

  lemma {:induction false} HeaderRewritten(file: File, r: Recording, log: seq<Sample>, end: nat, placed: Placed)
    requires Written(file, r, log, end) && r.blocks[0] > 0
    requires placed.item.HeaderItem? && placed.size == r.blocks[0]
    ensures Written(file[0 := placed], r, log, end)
  {
    hide IsFull, IndexOf, EntryOnFile, Adjacent;
    var file' := file[0 := placed];
    forall i: nat | i < |r.entries|
      ensures EntryOnFile(file', r, i) && Adjacent(file', r, i) && r.entries[i].pos != 0
    {
      KeptEntry(file, r, 0, placed, i);
    }
    KeptBlocks(file, r, 0, placed);
    forall k: nat | k < |r.blocks| - 1
      ensures BlockOnFile(file', r, k)
    {
      assert BlockOnFile(file, r, k);
    }
    assert EndsAt(file', r, end);
  }

  lemma {:induction false} WrittenHolds(file: File, r: Recording, log: seq<Sample>, end: nat)
    requires Written(file, r, log, end) && BlockOnFile(file, r, |r.blocks| - 1)
    requires |r.entries| < r.starts[|r.starts| - 1] + r.blockSize
    ensures Holds(file, r)
  {
    EndIsFree(file, r, end);
    hide IndexOf, EntryOnFile, Adjacent, IsFull, BlocksFollow, EndsThere, EndsAt, FullsOnFile;
  }

  lemma EndIsFree(file: File, r: Recording, end: nat)
    requires Shaped(r) && Bounded(file, end) && EndsAt(file, r, end)
    ensures EndsThere(file, r)
  {
  }

  /** Everything a writer knows stays known when a sample is stored. */
  lemma {:induction false} SampleAdded(
      file: File, r: Recording, log: seq<Sample>, end: nat, channels: map<(nat, nat), Channel>,
      placed: Placed, e: Entry, s: Sample, channel: Channel)
    requires Written(file, r, log, end) && Records(r, log) && ChannelsKnown(log, r.entries, channels)
    requires |r.blocks| == |r.starts| > 0 && |r.entries| < r.starts[|r.starts| - 1] + r.blockSize
    requires e.pos == end && e.time == TimeOf(log + [s], |log| + 1) && placed.size > 0
    requires channel.seqNum == s.seqNum
    requires var c, full := ChannelOf(s), LastFull(log, ChannelOf(s), |log|);
             var known := if c in channels then channels[c] else NEW_CHANNEL;
             if IsFull(log + [s], |log|) then placed.item == SampleItem(s) && channel.outputPos == e.pos
             else placed.item == PointerItem(known.outputPos) && channel.outputPos == known.outputPos
    ensures var log' := log + [s];
            var r' := OneMore(r, e, Stored(log', |log|));
            && Written(file[end := placed], r', log', end + placed.size) && Records(r', log')
            && ChannelsKnown(log', r'.entries, channels[ChannelOf(s) := channel])
            && r' == r.(entries := r'.entries, samples := r'.samples) && |r'.entries| == |log'|
            && |r.entries| >= r.starts[|r.starts| - 1]
            && IndexOf(r', |r.starts| - 1) == IndexOf(r, |r.starts| - 1)[|r.entries| - r.starts[|r.starts| - 1] := e]
  {
    hide IsFull, LastFull, LastSeqNum, ChannelsKnown, Records, Stored, IndexOf, TimeOf, BlocksOnFile, EntriesOnFile,
      FullsOnFile, EndsAt, Bounded;
    Decision(log, r.entries, channels, s);
    LogStep(log, s);
    AppendSample(file, r, log, end, placed, e, s);
    RecordsStep(r, log, e, s);
    ChannelsStep(log, r.entries, channels, s, e, channel);
    IndexStep(r, e, Stored(log + [s], |log|));
  }

  lemma RoomLeft(file: File, r: Recording, log: seq<Sample>, end: nat)
    requires Written(file, r, log, end)
    ensures Shaped(r) && |log| == |r.entries| && |r.blocks| == |r.starts| > 0
  {
  }

  /** Everything a writer knows stays known when a block is added. */
  lemma {:induction false} BlockAdded(file: File, r: Recording, log: seq<Sample>, end: nat)
    requires Written(file, r, log, end) && Records(r, log) && r.indexSize > 0
    requires Shaped(r) && r.blocks[0] > 0 && |r.entries| == r.starts[|r.starts| - 1] + r.blockSize
    ensures var r', last, empty := OneMoreBlock(r, end), |r.blocks| - 1, seq(r.blockSize, _ => UNUSED);
            var linked := file[r.blocks[last] := Placed(IndexItem(Prev(r, last), end, IndexOf(r, last)), r.indexSize)];
            && Written(linked[end := Placed(IndexItem(r.blocks[last], -1, empty), r.indexSize)], r', log,
                       end + r.indexSize)
            && Records(r', log) && r'.entries == r.entries && r'.blockSize == r.blockSize && r'.indexSize == r.indexSize
            && r'.blocks == r.blocks + [end] && r'.starts == r.starts + [|r.entries|]
            && IndexOf(r', |r'.blocks| - 1) == empty && r.blockSize > 0
  {
    hide BlocksOnFile, EntriesOnFile, FullsOnFile, EndsAt, Bounded, IndexOf;
    RewriteIndex(file, r, log, end, end);
    LinkedBlock(file, r, end);
    EmptyIndex(r, end);
    var empty := seq(r.blockSize, _ => UNUSED);
    AppendBlock(WithIndex(file, r, end), r, log, end,
                Placed(IndexItem(r.blocks[|r.blocks| - 1], -1, empty), r.indexSize));
  }

  lemma LinkedBlock(file: File, r: Recording, end: nat)
    requires Shaped(r)
    ensures BlockOnFile(WithIndex(file, r, end), OneMoreBlock(r, end), |r.blocks| - 1)
  {
    SameIndex(r, end, |r.blocks| - 1);
  }
}

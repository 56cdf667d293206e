/** Recording and reading back: from a run of writer calls to the samples a reader finds. */
module Replay {
  import opened Bytes
  import opened Wire
  import opened Recordings
  import opened Writer
  import opened Reader

  datatype Call = WriteCall(sample: Sample, size: nat) | FlushCall(headerBytes: nat)

  /** The samples of a run. */
  function Logged(calls: seq<Call>): seq<Sample> {
    if calls == [] then []
    else
      var last := calls[|calls| - 1];
      Logged(calls[..|calls| - 1]) + if last.WriteCall? then [last.sample] else []
  }

  /** What reading back a recording of log gives. */
  function ReadBack(log: seq<Sample>): (r: seq<Sample>)
    ensures |r| == |log|
  {
    seq(|log|, i requires 0 <= i < |log| => Stored(log, i))
  }

  predicate HeaderFits(headerStart: nat, headerBytes: nat, headerSize: nat) {
    headerStart + headerBytes + 6 <= headerSize
  }

  /** Every header that is written fits, the last one included. */
  predicate HeadersFit(calls: seq<Call>, headerStart: nat, headerSize: nat) {
    forall i: nat :: i < |calls| && calls[i].FlushCall? ==> HeaderFits(headerStart, calls[i].headerBytes, headerSize)
  }

  /** Makes the calls and closes the file; it goes through exactly if every header fits. */
  method Record(
      calls: seq<Call>, headerSize: nat, blockSize: nat, headerStart: nat,
      firstHeader: nat, lastHeader: nat)
    returns (ok: bool, file: File, ghost rec: Recording)
    requires 0 < blockSize <= MAX_SIZE
    requires forall i: nat :: i < |calls| && calls[i].WriteCall? ==> calls[i].size > 0
    ensures ok <==> HeaderFits(headerStart, firstHeader, headerSize) && HeadersFit(calls, headerStart, headerSize)
                    && HeaderFits(headerStart, lastHeader, headerSize)
    ensures ok ==>
              var log := Logged(calls);
              && Holds(file, rec) && Records(rec, log) && rec.blockSize == blockSize
              && file[0].item == HeaderItem(BeginOf(log, |log|), TimeOf(log, |log|))
  {
    hide Holds, Records, Written, BeginOf, TimeOf;
    file, rec := map[], Recording(1, 1, [], [], [], []);
    if !HeaderFits(headerStart, firstHeader, headerSize) {
      return false, file, rec;
    }
    var writer := new RecordWriter(headerSize, blockSize, headerStart, firstHeader);
    var i := 0;
    while i < |calls|
      invariant 0 <= i <= |calls| && writer.Valid() && writer.log == Logged(calls[..i]) && fresh(writer)
      invariant writer.headerSize == headerSize && writer.headerStart == headerStart
      invariant HeadersFit(calls[..i], headerStart, headerSize)
    {
      assert calls[..i + 1][..i] == calls[..i];
      if calls[i].WriteCall? {
        writer.Write(calls[i].sample, calls[i].size);
      } else {
        ok := writer.Flush(calls[i].headerBytes);
        if !ok {
          return;
        }
      }
      i := i + 1;
    }
    assert calls[..i] == calls;
    ok := writer.Flush(lastHeader);
    file := writer.file;
    rec := writer.rec;
  }

  /** Reads a file from the first sample to the last. */
  method ReadAll(file: File, ghost rec: Recording) returns (error: Option<OpenError>, all: seq<Sample>)
    requires Holds(file, rec)
    ensures if rec.entries == [] then error == Some(EmptyRecording) else error.None? && all == rec.samples
  {
    assert PointersBack(file) && |rec.samples| == |rec.entries|;
    hide Holds, RecordReader.OnBlock, Shaped, BlockEnd;
    all := [];
    var reader := new RecordReader(file, rec);
    error := reader.Reset();
    if error.Some? {
      return;
    }
    all := ReadRest(reader, reader.currSample.value);
  }

  /** The current sample and everything after it. */
  method ReadRest(reader: RecordReader, first: Sample) returns (all: seq<Sample>)
    requires reader.Valid() && reader.InSync() && first == reader.rec.samples[reader.flat]
    modifies reader
    ensures all == old(reader.rec.samples[reader.flat..])
  {
    hide RecordReader.Valid, RecordReader.InSync;
    ghost var samples, start := reader.rec.samples, reader.flat;
    all := [first];
    var more := true;
    while more
      invariant reader.Valid() && reader.InSync() && start <= reader.flat
      invariant all == samples[start..reader.flat + 1]
      invariant !more ==> reader.flat + 1 == |samples|
      decreases more, |samples| - reader.flat
    {
      var r := reader.ReadNext();
      if r.Some? {
        all := all + [r.value];
      }
      more := r.Some?;
    }
  }

  /**
   A recording reads back as exactly the samples that were written, in order, each pointer giving the
   last sample of its channel that was stored in full; an empty one cannot be opened.
   */
  method RecordAndReplay(
      calls: seq<Call>, headerSize: nat, blockSize: nat, headerStart: nat,
      firstHeader: nat, lastHeader: nat)
    returns (ok: bool, error: Option<OpenError>, all: seq<Sample>)
    requires 0 < blockSize <= MAX_SIZE
    requires forall i: nat :: i < |calls| && calls[i].WriteCall? ==> calls[i].size > 0
    ensures ok <==> HeaderFits(headerStart, firstHeader, headerSize) && HeadersFit(calls, headerStart, headerSize)
                    && HeaderFits(headerStart, lastHeader, headerSize)
    ensures ok ==>
              var log := Logged(calls);
              if log == [] then error == Some(EmptyRecording) else error.None? && all == ReadBack(log)
  {
    error, all := None, [];
    var file;
    ghost var rec;
    ok, file, rec := Record(calls, headerSize, blockSize, headerStart, firstHeader, lastHeader);
    if ok {
      error, all := ReadAll(file, rec);
    }
  }

  /** If re-sent samples repeat their values, reading back gives every sample with its own value. */
  lemma {:induction false} ReadBackValues(log: seq<Sample>)
    requires Resent(log)
    ensures forall i: nat :: i < |log| ==>
              && ChannelOf(ReadBack(log)[i]) == ChannelOf(log[i])
              && ReadBack(log)[i].seqNum == log[i].seqNum && ReadBack(log)[i].value == log[i].value
  {
    forall i: nat | i < |log|
      ensures Stored(log, i).seqNum == log[i].seqNum && Stored(log, i).value == log[i].value
    {
      ResentIsStored(log, i);
    }
  }

  /** A step forward that succeeded is undone by a step back, across blocks too. */
  method ForwardAndBack(reader: RecordReader) returns (moved: bool)
    requires reader.Valid()
    modifies reader
    ensures reader.Valid() && reader.flat == old(reader.flat)
  {
    moved := reader.SeekNext();
    if moved {
      var back := reader.SeekPrev();
    }
  }

  // Three samples of three channels.
  const FIRST := Sample(1, 1, 1, 10, 100)
  const SECOND := Sample(2, 1, 1, 20, 200)
  const THIRD := Sample(3, 1, 1, 30, 300)

  lemma LoggedNext(calls: seq<Call>, call: Call)
    ensures Logged([]) == [] && [] + [call] == [call]
    ensures Logged(calls + [call]) == Logged(calls) + if call.WriteCall? then [call.sample] else []
  {
    assert (calls + [call])[..|calls|] == calls;
  }

  lemma {:induction false} ThreeSamples()
    ensures var calls := [WriteCall(FIRST, 8), WriteCall(SECOND, 8), WriteCall(THIRD, 8)];
            Logged(calls) == [FIRST, SECOND, THIRD] && ReadBack(Logged(calls)) == [FIRST, SECOND, THIRD]
  {
    var calls := [WriteCall(FIRST, 8), WriteCall(SECOND, 8), WriteCall(THIRD, 8)];
    LoggedNext([], WriteCall(FIRST, 8));
    LoggedNext([WriteCall(FIRST, 8)], WriteCall(SECOND, 8));
    LoggedNext([WriteCall(FIRST, 8), WriteCall(SECOND, 8)], WriteCall(THIRD, 8));
    var log := Logged(calls);
    assert log == [FIRST, SECOND, THIRD] by {
      assert [] + [FIRST] + [SECOND] + [THIRD] == [FIRST, SECOND, THIRD];
      assert [WriteCall(FIRST, 8), WriteCall(SECOND, 8)] + [WriteCall(THIRD, 8)] == calls;
    }
    assert forall i: nat :: i < 3 ==> LastFull(log, ChannelOf(log[i]), i).None?;
    assert forall i: nat :: i < 3 ==> IsFull(log, i) && LastFull(log, ChannelOf(log[i]), i + 1) == Some(i);
    assert forall i: nat :: i < 3 ==> Stored(log, i) == log[i];
  }

  /** Three samples are recorded; stepping to the second one and back reads the third one. */
  method PreviousIsNext() returns (r: Option<Sample>)
    ensures r == Some(THIRD)
  {
    hide Holds, Records, Resolves, Logged, ReadBack, Stored;
    var calls := [WriteCall(FIRST, 8), WriteCall(SECOND, 8), WriteCall(THIRD, 8)];
    ThreeSamples();
    var ok, file;
    ghost var rec;
    ok, file, rec := Record(calls, 1000, 16, 100, 200, 200);
    assert HeadersFit(calls, 100, 1000);
    SamplesAreReadBack(file, rec, Logged(calls));
    var reader := new RecordReader(file, rec);
    var error := reader.Reset();
    OneBlock(file, rec);
    r := reader.ReadNext();
    ok, r := reader.ReadPrev(1);
  }

  lemma SamplesAreReadBack(file: File, rec: Recording, log: seq<Sample>)
    requires Holds(file, rec) && Records(rec, log)
    ensures PointersBack(file) && |rec.entries| == |log| && rec.samples == ReadBack(log)
  {
  }

  lemma OneBlock(file: File, rec: Recording)
    requires Holds(file, rec) && |rec.entries| < rec.blockSize
    ensures Shaped(rec) && |rec.starts| == 1 && rec.starts[0] == 0
  {
    if |rec.starts| > 1 {
      StartsApart(rec, 0, |rec.starts| - 1);
    }
  }

  /** Recorded times do not go back. */
  lemma {:induction false} RecordedTimesGrow(rec: Recording, log: seq<Sample>, i: nat, j: nat)
    requires Records(rec, log) && i <= j < |log|
    ensures rec.entries[i].time <= rec.entries[j].time
  {
    TimesGrow(log, i + 1, j + 1);
  }
}

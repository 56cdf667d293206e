/** Several recordings, from the writers that made them to one stream of samples sorted by time. */
module MergedReplay {
  import opened Bytes
  import opened Recordings
  import opened Writer
  import opened Reader
  import opened Replay
  import opened Merge

  /** Recorded times start at 0 or later and do not go back. */
  lemma {:induction false} TimesArePositive(log: seq<Sample>, n: nat)
    requires n <= |log|
    ensures TimeOf(log, n) >= 0
  {
    if n > 0 {
      TimesArePositive(log, n - 1);
    }
  }

  lemma {:induction false} RecordedInOrder(recs: seq<Recording>, logs: seq<seq<Sample>>)
    requires |recs| == |logs| && forall f: nat :: f < |recs| ==> Records(recs[f], logs[f])
    ensures TimesInOrder(recs)
  {
    hide TimeOf, Stored;
    forall f: nat | f < |recs|
      ensures |recs[f].samples| == |recs[f].entries|
      ensures forall i: nat :: i < |recs[f].entries| ==> recs[f].entries[i].time >= 0
      ensures forall i, j :: 0 <= i < j < |recs[f].entries| ==> recs[f].entries[i].time <= recs[f].entries[j].time
    {
      assert Records(recs[f], logs[f]);
      forall i: nat | i < |recs[f].entries|
        ensures recs[f].entries[i].time >= 0
      {
        TimesArePositive(logs[f], i + 1);
      }
      forall i, j | 0 <= i < j < |recs[f].entries|
        ensures recs[f].entries[i].time <= recs[f].entries[j].time
      {
        RecordedTimesGrow(recs[f], logs[f], i, j);
      }
    }
  }

  /** A recorded sample of one of the logs. */
  predicate IsLogged(logs: seq<seq<Sample>>, t: Taken) {
    t.file < |logs| && t.index < |logs[t.file]|
  }

  /** By recorded time, and by file if times are equal. */
  predicate Sorted(logs: seq<seq<Sample>>, a: Taken, b: Taken)
    requires IsLogged(logs, a) && IsLogged(logs, b)
  {
    var x, y := TimeOf(logs[a.file], a.index + 1), TimeOf(logs[b.file], b.index + 1);
    x < y || (x == y && a.file <= b.file)
  }

  /** Every sample of every log exactly once, those of one log in their order. */
  predicate Merged(logs: seq<seq<Sample>>, trace: seq<Taken>) {
    && (forall f: nat :: f < |logs| ==> CountOf(trace, f) == |logs[f]|)
    && (forall p: nat :: p < |trace| ==> IsLogged(logs, trace[p]) && trace[p].index == CountOf(trace[..p], trace[p].file))
    && forall p, q :: 0 <= p < q < |trace| ==> Sorted(logs, trace[p], trace[q])
  }

  /** The samples of a merge, each as reading back its own log gives it. */
  predicate IsMerge(logs: seq<seq<Sample>>, trace: seq<Taken>, all: seq<Sample>) {
    && Merged(logs, trace) && |all| == |trace|
    && forall p: nat :: p < |all| ==>
         IsLogged(logs, trace[p]) && all[p] == ReadBack(logs[trace[p].file])[trace[p].index]
  }

  /**
   Files that were recorded, read together: the samples of all of them, as each file alone would give
   them, sorted by the time at which they were recorded.
   */
  method ReadTogether(files: seq<File>, ghost recs: seq<Recording>, ghost logs: seq<seq<Sample>>)
    returns (all: seq<Sample>)
    requires |files| == |recs| == |logs|
    requires forall f: nat :: f < |files| ==> Holds(files[f], recs[f]) && Records(recs[f], logs[f]) && logs[f] != []
    ensures exists trace :: IsMerge(logs, trace, all)
  {
    hide Holds, Records, Interleaves, NotAfter, Merged, TimesInOrder, Stored, ReadBack, IsMerge;
    var readers: seq<RecordReader> := [];
    var f := 0;
    while f < |files|
      invariant 0 <= f <= |files| && |readers| == f
      invariant forall i: nat :: i < f ==>
                  fresh(readers[i]) && readers[i].file == files[i] && readers[i].rec == recs[i]
      invariant forall i, j :: 0 <= i < j < f ==> readers[i] != readers[j]
    {
      var reader := new RecordReader(files[f], recs[f]);
      readers := readers + [reader];
      f := f + 1;
    }
    var multi := new MultiRecordReader(readers);
    assert multi.recs == recs;
    RecordedInOrder(recs, logs);
    forall i: nat | i < |recs|
      ensures recs[i].entries != []
    {
      SameLength(recs[i], logs[i]);
    }
    ghost var trace;
    all, trace := ReadEverything(multi);
    MergedLogs(recs, logs, trace, all);
  }

  lemma SameLength(rec: Recording, log: seq<Sample>)
    requires Records(rec, log)
    ensures |rec.entries| == |rec.samples| == |log| && rec.samples == ReadBack(log)
  {
    hide Stored;
  }

  lemma {:induction false} MergedLogs(
      recs: seq<Recording>, logs: seq<seq<Sample>>, trace: seq<Taken>, all: seq<Sample>)
    requires |recs| == |logs| && forall f: nat :: f < |recs| ==> Records(recs[f], logs[f])
    requires Interleaves(recs, trace, seq(|recs|, f requires 0 <= f < |recs| => |recs[f].entries|))
    requires forall p, q :: 0 <= p < q < |trace| ==> NotAfter(recs, trace[p], trace[q])
    requires |all| == |trace|
    requires forall p: nat :: p < |all| ==> all[p] == recs[trace[p].file].samples[trace[p].index]
    ensures IsMerge(logs, trace, all)
  {
    hide CountOf, Stored, TimeOf, ReadBack;
    forall f: nat | f < |recs|
      ensures |recs[f].entries| == |logs[f]| && recs[f].samples == ReadBack(logs[f])
    {
      SameLength(recs[f], logs[f]);
    }
    forall p: nat | p < |trace|
      ensures IsLogged(logs, trace[p]) && trace[p].index == CountOf(trace[..p], trace[p].file)
    {
      assert Exists(recs, trace[p]);
    }
    forall p, q | 0 <= p < q < |trace|
      ensures Sorted(logs, trace[p], trace[q])
    {
      assert NotAfter(recs, trace[p], trace[q]);
      assert Records(recs[trace[p].file], logs[trace[p].file]) && Records(recs[trace[q].file], logs[trace[q].file]);
    }
  }
}

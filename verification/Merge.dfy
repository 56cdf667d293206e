/** `MultiRecordReader`: several recordings merged by time. */
module Merge {
  import opened Bytes
  import opened Recordings
  import opened Reader

  /** A sample of a merged stream: entry `index` of file `file`. */
  datatype Taken = Taken(file: nat, index: nat)

  // ---------------------------------------------------------------------------------------------
  // Choosing the next file

  /** The choice after the first n files; heads are the times of unread samples. */
  function Choose(heads: seq<Option<int>>, n: nat): (int, Option<nat>)
    requires n <= |heads|
    ensures var (found, at) := Choose(heads, n); at.Some? ==> at.value < n && heads[at.value] == Some(found)
  {
    if n == 0 then (-1, None)
    else
      var (found, at) := Choose(heads, n - 1);
      if heads[n - 1].Some? && (heads[n - 1].value < found || found < 0) then (heads[n - 1].value, Some(n - 1))
      else (found, at)
  }

  /** With times that are not negative it is the earliest head, the first file if several are. */
  predicate IsEarliest(heads: seq<Option<int>>, at: nat) {
    && at < |heads| && heads[at].Some?
    && forall j: nat :: j < |heads| && heads[j].Some? ==>
         heads[at].value <= heads[j].value && (heads[at].value == heads[j].value ==> at <= j)
  }

  lemma {:induction false} ChooseEarliest(heads: seq<Option<int>>, n: nat)
    requires n <= |heads|
    requires forall j: nat :: j < |heads| && heads[j].Some? ==> heads[j].value >= 0
    ensures var (found, at) := Choose(heads, n);
            && (found < 0 <==> forall j: nat :: j < n ==> heads[j].None?)
            && (found >= 0 ==> at.Some? && heads[at.value] == Some(found) && IsEarliest(heads[..n], at.value))
  {
    if n > 0 {
      ChooseEarliest(heads, n - 1);
      assert forall j: nat :: j < n - 1 ==> heads[..n - 1][j] == heads[..n][j];
    }
  }

  /** The last file with unread samples. */
  function LastUnread(heads: seq<Option<int>>, n: nat): (r: Option<nat>)
    requires n <= |heads|
    ensures r.Some? ==> r.value < n && heads[r.value].Some?
  {
    if n == 0 then None else if heads[n - 1].Some? then Some(n - 1) else LastUnread(heads, n - 1)
  }

  /** In general nothing is found exactly if all is read or the last file with unread samples has a negative time. */
  lemma {:induction false} ChooseFails(heads: seq<Option<int>>, n: nat)
    requires n <= |heads|
    ensures Choose(heads, n).0 < 0 <==>
            LastUnread(heads, n).None? || heads[LastUnread(heads, n).value].value < 0
  {
    if n > 0 {
      ChooseFails(heads, n - 1);
    }
  }

  // ---------------------------------------------------------------------------------------------
  // The object

  /** The next unread sample of a file of which `taken` samples have been taken. */
  function HeadOf(rec: Recording, taken: nat): Option<int> {
    if taken < |rec.entries| && taken < |rec.samples| then Some(rec.entries[taken].time) else None
  }

  function HeadsOf(recs: seq<Recording>, taken: seq<nat>): (heads: seq<Option<int>>)
    requires |taken| == |recs|
    ensures |heads| == |recs|
    ensures forall i: nat :: i < |heads| ==> heads[i] == HeadOf(recs[i], taken[i])
  {
    seq(|recs|, i requires 0 <= i < |recs| => HeadOf(recs[i], taken[i]))
  }

  class MultiRecordReader {
    const readers: seq<RecordReader>
    var currFile: Option<nat>
    var currSample: Option<Sample>
    var currTime: int

    ghost const recs: seq<Recording>
    ghost var taken: seq<nat>

    ghost predicate Valid()
      reads this, readers
    {
      && |readers| == |recs| == |taken|
      && (forall i, j :: 0 <= i < j < |readers| ==> readers[i] != readers[j])
      && forall i: nat :: i < |readers| ==> Ready(readers[i], recs[i], taken[i])
    }

    /** A reader shows the first of its unread samples. */
    static ghost predicate Ready(reader: RecordReader, rec: Recording, taken: nat)
      reads reader
    {
      && reader.rec == rec && reader.Valid() && reader.InSync()
      && taken == (if reader.isEnd then |rec.entries| else reader.flat)
      && (reader.isEnd ==> reader.flat == |rec.entries| - 1)
    }

    constructor (readers: seq<RecordReader>)
      ensures this.readers == readers && |recs| == |readers| && currFile.None? && currSample.None?
      ensures forall i: nat :: i < |readers| ==> recs[i] == readers[i].rec
    {
      this.readers := readers;
      currFile, currSample, currTime := None, None, 0;
      recs := seq(|readers|, i requires 0 <= i < |readers| => readers[i].rec);
      taken := [];
    }

    /** `read_next`: the chosen file gives its current sample and reads the one after it. */
    method ReadNext() returns (r: Option<Sample>)
      requires Valid()
      modifies this`currFile, this`currSample, this`currTime, this`taken, readers
      ensures Valid()
      ensures var (found, at) := Choose(HeadsOf(recs, old(taken)), |recs|);
              if found < 0 then r.None? && taken == old(taken) && currSample == old(currSample)
              else
                && at.Some? && at.value < |recs| && currFile == at && currTime == found
                && old(taken)[at.value] < |recs[at.value].samples|
                && r == Some(recs[at.value].samples[old(taken)[at.value]])
                && taken == old(taken)[at.value := old(taken)[at.value] + 1]
      ensures r.Some? ==> currSample == r
    {
      hide RecordReader.Valid, RecordReader.InSync, Ready;
      ghost var heads := HeadsOf(recs, taken);
      var found := -1;
      var i := 0;
      while i < |readers|
        invariant 0 <= i <= |readers|
        invariant found == Choose(heads, i).0
        invariant found >= 0 ==> Choose(heads, i).1 == currFile && currFile.Some? && currFile.value < |readers|
        modifies this`currFile
      {
        ReadyHead(readers[i], recs[i], taken[i]);
        if !readers[i].isEnd {
          var time := readers[i].Time();
          if time < found || found < 0 {
            found := time;
            currFile := Some(i);
          }
        }
        i := i + 1;
      }
      if found < 0 {
        return None;
      }
      r := TakeFrom(currFile.value);
    }

    /**
     `reset`: every file from its start; the first sample of all becomes the current one. If nothing is
     found it throws, unless there is a current sample left from before.
     */
    method Reset() returns (ok: bool)
      requires |readers| == |recs| && forall i, j :: 0 <= i < j < |readers| ==> readers[i] != readers[j]
      requires forall i: nat :: i < |readers| ==>
                 readers[i].rec == recs[i] && Holds(readers[i].file, recs[i]) && recs[i].entries != []
      modifies this, readers
      ensures Valid()
      ensures var start := seq(|recs|, _ => 0);
              var (found, at) := Choose(HeadsOf(recs, start), |recs|);
              if found < 0 then
                && taken == start && currSample == old(currSample)
                && ok == (currFile.Some? && currSample.Some?)
              else ok && at.Some? && at.value < |recs| && recs[at.value].samples != []
                   && currFile == at && currTime == found
                   && currSample == Some(recs[at.value].samples[0]) && taken == start[at.value := 1]
    {
      hide RecordReader.Valid, RecordReader.InSync, Holds, Ready;
      var i := 0;
      while i < |readers|
        invariant 0 <= i <= |readers|
        invariant forall j: nat :: j < i ==> Ready(readers[j], recs[j], 0)
        modifies readers
      {
        HoldsBack(readers[i].file, recs[i]);
        var error := readers[i].Reset();
        MakeReady(readers[i], recs[i]);
        i := i + 1;
      }
      taken := seq(|recs|, _ => 0);
      var first := ReadNext();
      ok := currFile.Some? && currSample.Some?;
    }

    method TakeFrom(at: nat) returns (r: Option<Sample>)
      requires Valid() && at < |recs| && HeadOf(recs[at], taken[at]).Some? && currFile == Some(at)
      modifies this`currSample, this`currTime, this`taken, readers
      ensures Valid() && taken == old(taken)[at := old(taken)[at] + 1]
      ensures r == currSample == Some(recs[at].samples[old(taken)[at]])
      ensures Some(currTime) == HeadOf(recs[at], old(taken)[at])
    {
      hide RecordReader.Valid, RecordReader.InSync;
      var file := readers[at];
      ReadyHead(file, recs[at], taken[at]);
      currSample := file.currSample;
      currTime := file.Time();
      r := currSample;
      taken := taken[at := taken[at] + 1];
      var next := file.ReadNext();
    }
  }

  lemma ReadyHead(reader: RecordReader, rec: Recording, taken: nat)
    requires MultiRecordReader.Ready(reader, rec, taken)
    ensures reader.Valid() && reader.InSync() && reader.rec == rec
    ensures HeadOf(rec, taken) == if reader.isEnd then None else Some(rec.entries[reader.flat].time)
    ensures !reader.isEnd ==>
              reader.flat == taken && taken < |rec.samples| && reader.currSample == Some(rec.samples[taken])
  {
  }

  lemma MakeReady(reader: RecordReader, rec: Recording)
    requires reader.rec == rec && reader.Valid() && reader.InSync() && reader.flat == 0 && !reader.isEnd
    ensures MultiRecordReader.Ready(reader, rec, 0)
  {
  }

  lemma HoldsBack(file: File, rec: Recording)
    requires Holds(file, rec)
    ensures PointersBack(file) && |rec.samples| == |rec.entries|
  {
  }

  // ---------------------------------------------------------------------------------------------
  // A whole run

  function CountOf(trace: seq<Taken>, file: nat): nat {
    if trace == [] then 0
    else CountOf(trace[..|trace| - 1], file) + if trace[|trace| - 1].file == file then 1 else 0
  }

  predicate Exists(recs: seq<Recording>, t: Taken) {
    t.file < |recs| && t.index < |recs[t.file].entries| == |recs[t.file].samples|
  }

  /** By time, and by file if times are equal. */
  predicate NotAfter(recs: seq<Recording>, a: Taken, b: Taken)
    requires Exists(recs, a) && Exists(recs, b)
  {
    var x, y := recs[a.file].entries[a.index].time, recs[b.file].entries[b.index].time;
    x < y || (x == y && a.file <= b.file)
  }

  /** The trace takes the samples of each file in order, the given number of each. */
  predicate Interleaves(recs: seq<Recording>, trace: seq<Taken>, taken: seq<nat>) {
    && |taken| == |recs|
    && (forall f: nat :: f < |recs| ==> CountOf(trace, f) == taken[f])
    && forall p: nat :: p < |trace| ==> Exists(recs, trace[p]) && trace[p].index == CountOf(trace[..p], trace[p].file)
  }

  /** Sorted, and nothing that is still unread belongs before anything taken. */
  predicate SortedSoFar(recs: seq<Recording>, trace: seq<Taken>, taken: seq<nat>)
    requires Interleaves(recs, trace, taken)
  {
    && (forall p, q :: 0 <= p < q < |trace| ==> NotAfter(recs, trace[p], trace[q]))
    && forall p, f: nat :: 0 <= p < |trace| && f < |recs| && Exists(recs, Taken(f, taken[f])) ==>
         NotAfter(recs, trace[p], Taken(f, taken[f]))
  }

  predicate TimesInOrder(recs: seq<Recording>) {
    forall f: nat :: f < |recs| ==>
      && |recs[f].samples| == |recs[f].entries|
      && (forall i: nat :: i < |recs[f].entries| ==> recs[f].entries[i].time >= 0)
      && forall i, j :: 0 <= i < j < |recs[f].entries| ==> recs[f].entries[i].time <= recs[f].entries[j].time
  }

  lemma {:induction false} TakeOne(recs: seq<Recording>, trace: seq<Taken>, taken: seq<nat>, at: nat)
    requires TimesInOrder(recs) && Interleaves(recs, trace, taken) && SortedSoFar(recs, trace, taken)
    requires IsEarliest(HeadsOf(recs, taken), at)
    ensures at < |recs| && Exists(recs, Taken(at, taken[at]))
    ensures var trace', taken' := trace + [Taken(at, taken[at])], taken[at := taken[at] + 1];
            Interleaves(recs, trace', taken') && SortedSoFar(recs, trace', taken')
  {
    var t := Taken(at, taken[at]);
    var trace', taken' := trace + [t], taken[at := taken[at] + 1];
    assert HeadOf(recs[at], taken[at]).Some?;
    InterleavesStep(recs, trace, taken, at);
    forall p, f: nat | 0 <= p < |trace'| && f < |recs| && Exists(recs, Taken(f, taken'[f]))
      ensures NotAfter(recs, trace'[p], Taken(f, taken'[f]))
    {
      var head := Taken(f, taken[f]);
      assert HeadOf(recs[f], taken[f]).Some?;
      assert NotAfter(recs, t, head);
      if p < |trace| {
        assert NotAfter(recs, trace[p], head);
      }
    }
  }

  lemma {:induction false} InterleavesStep(recs: seq<Recording>, trace: seq<Taken>, taken: seq<nat>, at: nat)
    requires Interleaves(recs, trace, taken) && at < |recs| && Exists(recs, Taken(at, taken[at]))
    ensures Interleaves(recs, trace + [Taken(at, taken[at])], taken[at := taken[at] + 1])
  {
    var t := Taken(at, taken[at]);
    var trace', taken' := trace + [t], taken[at := taken[at] + 1];
    forall f: nat | f < |recs|
      ensures CountOf(trace', f) == taken'[f]
    {
      CountOneMore(trace, t, f);
    }
    hide CountOf;
    forall p: nat | p < |trace'|
      ensures Exists(recs, trace'[p]) && trace'[p].index == CountOf(trace'[..p], trace'[p].file)
    {
      assert trace'[..p] == trace[..p];
      assert trace[..|trace|] == trace;
    }
  }

  lemma CountOneMore(trace: seq<Taken>, t: Taken, f: nat)
    ensures CountOf(trace + [t], f) == CountOf(trace, f) + if t.file == f then 1 else 0
  {
    assert (trace + [t])[..|trace|] == trace;
  }

  /**
   From `reset` to the end: the results are a merge of all files by time, ties in file order, with
   every sample of every file exactly once and in the order of its file.
   */
  method ReadEverything(multi: MultiRecordReader) returns (all: seq<Sample>, ghost trace: seq<Taken>)
    requires |multi.readers| == |multi.recs| && (multi.readers == [] ==> multi.currSample.None?)
    requires forall i, j :: 0 <= i < j < |multi.readers| ==> multi.readers[i] != multi.readers[j]
    requires forall i: nat :: i < |multi.readers| ==>
               && multi.readers[i].rec == multi.recs[i]
               && Holds(multi.readers[i].file, multi.recs[i]) && multi.recs[i].entries != []
    requires TimesInOrder(multi.recs)
    modifies multi, multi.readers
    ensures var recs := multi.recs;
            && Interleaves(recs, trace, seq(|recs|, f requires 0 <= f < |recs| => |recs[f].entries|))
            && (forall p, q :: 0 <= p < q < |trace| ==> NotAfter(recs, trace[p], trace[q]))
            && |all| == |trace|
            && forall p: nat :: p < |all| ==> all[p] == recs[trace[p].file].samples[trace[p].index]
  {
    hide Holds, RecordReader.Valid, RecordReader.InSync, MultiRecordReader.Valid, Interleaves, SortedSoFar, Choose,
      IsEarliest, TimesInOrder, HeadsOf, HeadOf, NotAfter, CountOf;
    ghost var recs := multi.recs;
    ghost var taken := seq(|recs|, _ => 0);
    all, trace := [], [];
    NothingTaken(recs);
    ChosenHead(recs, trace, taken);
    var more := multi.Reset();
    if more {
      FirstIsFound(recs);
      assert taken[multi.currFile.value] == 0;
      all, trace := [multi.currSample.value], trace + [Taken(multi.currFile.value, taken[multi.currFile.value])];
    }
    ChosenHead(recs, trace, multi.taken);
    while more
      invariant multi.Valid() && |all| == |trace| && |multi.taken| == |recs|
      invariant Interleaves(recs, trace, multi.taken) && SortedSoFar(recs, trace, multi.taken)
      invariant forall p: nat :: p < |all| ==>
                  Exists(recs, trace[p]) && all[p] == recs[trace[p].file].samples[trace[p].index]
      invariant forall f: nat :: f < |recs| ==> multi.taken[f] <= |recs[f].entries|
      invariant !more ==> forall f: nat :: f < |recs| ==> HeadOf(recs[f], multi.taken[f]).None?
      decreases more, Remaining(recs, multi.taken, |recs|)
    {
      ghost var was := multi.taken;
      ChosenHead(recs, trace, was);
      var r := multi.ReadNext();
      more := r.Some?;
      if more {
        all, trace := all + [r.value], trace + [Taken(multi.currFile.value, was[multi.currFile.value])];
        RemainingShrinks(recs, was, multi.currFile.value, |recs|);
      }
    }
    RunEnds(recs, trace, multi.taken);
  }

  /** No sample of any file has a negative time. */
  predicate NoNegative(recs: seq<Recording>) {
    forall f: nat, i: nat :: f < |recs| && i < |recs[f].entries| ==> recs[f].entries[i].time >= 0
  }

  /** Everything taken so far has a time that is not negative, since nothing else is ever chosen. */
  predicate TakenPositive(recs: seq<Recording>, taken: seq<nat>) {
    && |taken| == |recs|
    && forall f: nat :: f < |recs| ==>
         && taken[f] <= |recs[f].entries|
         && forall i: nat :: i < taken[f] ==> recs[f].entries[i].time >= 0
  }

  predicate AllTaken(recs: seq<Recording>, taken: seq<nat>) {
    |taken| == |recs| && forall f: nat :: f < |recs| ==> taken[f] == |recs[f].entries|
  }

  /** One more sample is taken, or the run is over: then everything was read unless a time is negative. */
  lemma {:induction false} ChosenIsPositive(recs: seq<Recording>, taken: seq<nat>)
    requires TakenPositive(recs, taken) && forall f: nat :: f < |recs| ==> |recs[f].samples| == |recs[f].entries|
    ensures var (found, at) := Choose(HeadsOf(recs, taken), |recs|);
            if found < 0 then AllTaken(recs, taken) <==> NoNegative(recs)
            else
              && at.Some? && at.value < |recs| && taken[at.value] < |recs[at.value].entries|
              && TakenPositive(recs, taken[at.value := taken[at.value] + 1])
  {
    hide Choose, LastUnread;
    var heads := HeadsOf(recs, taken);
    var (found, at) := Choose(heads, |recs|);
    if found < 0 {
      ChooseFails(heads, |recs|);
      var last := LastUnread(heads, |recs|);
      if last.Some? {
        assert recs[last.value].entries[taken[last.value]].time < 0;
      } else {
        NoneUnread(heads, |recs|);
      }
    } else {
      ChooseFinds(heads, |recs|);
    }
  }

  lemma {:induction false} NoneUnread(heads: seq<Option<int>>, n: nat)
    requires n <= |heads| && LastUnread(heads, n).None?
    ensures forall j: nat :: j < n ==> heads[j].None?
  {
    if n > 0 {
      NoneUnread(heads, n - 1);
    }
  }

  lemma {:induction false} ChooseFinds(heads: seq<Option<int>>, n: nat)
    requires n <= |heads| && Choose(heads, n).0 >= 0
    ensures var (found, at) := Choose(heads, n); at.Some? && at.value < n && heads[at.value] == Some(found)
  {
    if n > 0 && Choose(heads, n - 1).0 >= 0 {
      ChooseFinds(heads, n - 1);
    }
  }

  /**
   A whole run, whatever the times are: from `reset` to the first `read_next` that gives nothing. Every
   sample of every file is read if and only if none of them has a negative time.
   */
  method ReadThrough(multi: MultiRecordReader)
    requires |multi.readers| == |multi.recs| && multi.currSample.None?
    requires forall i, j :: 0 <= i < j < |multi.readers| ==> multi.readers[i] != multi.readers[j]
    requires forall i: nat :: i < |multi.readers| ==>
               && multi.readers[i].rec == multi.recs[i]
               && Holds(multi.readers[i].file, multi.recs[i]) && multi.recs[i].entries != []
    modifies multi, multi.readers
    ensures multi.Valid() && (AllTaken(multi.recs, multi.taken) <==> NoNegative(multi.recs))
  {
    ghost var recs := multi.recs;
    SamplesForEntries(multi);
    hide Holds, RecordReader.Valid, RecordReader.InSync, MultiRecordReader.Valid, MultiRecordReader.Ready, Choose, HeadsOf,
      HeadOf, AllTaken, NoNegative, TakenPositive;
    StartIsPositive(recs);
    ChosenIsPositive(recs, seq(|recs|, _ => 0));
    var more := multi.Reset();
    if more {
      ReadOn(multi);
    }
  }

  lemma SamplesForEntries(multi: MultiRecordReader)
    requires |multi.readers| == |multi.recs|
    requires forall i: nat :: i < |multi.readers| ==> Holds(multi.readers[i].file, multi.recs[i])
    ensures forall f: nat :: f < |multi.recs| ==> |multi.recs[f].samples| == |multi.recs[f].entries|
  {
    hide Holds;
    forall f: nat | f < |multi.recs|
      ensures |multi.recs[f].samples| == |multi.recs[f].entries|
    {
      HoldsBack(multi.readers[f].file, multi.recs[f]);
    }
  }

  /** `read_next` until it gives nothing. */
  method ReadOn(multi: MultiRecordReader)
    requires multi.Valid() && TakenPositive(multi.recs, multi.taken)
    requires forall f: nat :: f < |multi.recs| ==> |multi.recs[f].samples| == |multi.recs[f].entries|
    modifies multi, multi.readers
    ensures multi.Valid() && (AllTaken(multi.recs, multi.taken) <==> NoNegative(multi.recs))
  {
    hide RecordReader.Valid, RecordReader.InSync, MultiRecordReader.Valid, MultiRecordReader.Ready, Choose, HeadsOf,
      HeadOf, AllTaken, NoNegative, TakenPositive, Left;
    ghost var recs := multi.recs;
    var more := true;
    while more
      invariant multi.Valid() && TakenPositive(recs, multi.taken)
      invariant !more ==> (AllTaken(recs, multi.taken) <==> NoNegative(recs))
      decreases more, Left(recs, multi.taken)
    {
      ghost var was := multi.taken;
      ChosenIsPositive(recs, was);
      var r := multi.ReadNext();
      more := r.Some?;
      if more {
        LeftShrinks(recs, was, multi.currFile.value);
      }
    }
  }

  lemma StartIsPositive(recs: seq<Recording>)
    ensures TakenPositive(recs, seq(|recs|, _ => 0))
  {
  }

  ghost function Left(recs: seq<Recording>, taken: seq<nat>): nat {
    if TakenPositive(recs, taken) then Remaining(recs, taken, |recs|) else 0
  }

  lemma LeftShrinks(recs: seq<Recording>, taken: seq<nat>, at: nat)
    requires TakenPositive(recs, taken) && at < |recs| && taken[at] < |recs[at].entries|
    requires TakenPositive(recs, taken[at := taken[at] + 1])
    ensures Left(recs, taken[at := taken[at] + 1]) < Left(recs, taken)
  {
    RemainingShrinks(recs, taken, at, |recs|);
  }

  /** At the start something is found if there is a file at all. */
  lemma {:induction false} FirstIsFound(recs: seq<Recording>)
    requires TimesInOrder(recs) && recs != [] && forall i: nat :: i < |recs| ==> recs[i].entries != []
    ensures Choose(HeadsOf(recs, seq(|recs|, _ => 0)), |recs|).0 >= 0
  {
    var heads := HeadsOf(recs, seq(|recs|, _ => 0));
    ChooseEarliest(heads, |recs|);
    assert heads[0].Some?;
  }

  /** How many samples are left in the first n files. */
  ghost function Remaining(recs: seq<Recording>, taken: seq<nat>, n: nat): nat
    requires n <= |recs| == |taken| && forall f: nat :: f < |recs| ==> taken[f] <= |recs[f].entries|
  {
    if n == 0 then 0 else Remaining(recs, taken, n - 1) + |recs[n - 1].entries| - taken[n - 1]
  }

  lemma {:induction false} RemainingShrinks(recs: seq<Recording>, taken: seq<nat>, at: nat, n: nat)
    requires n <= |recs| == |taken| && forall f: nat :: f < |recs| ==> taken[f] <= |recs[f].entries|
    requires at < |recs| && taken[at] < |recs[at].entries|
    ensures Remaining(recs, taken[at := taken[at] + 1], n) == Remaining(recs, taken, n) - if at < n then 1 else 0
  {
    if n > 0 {
      RemainingShrinks(recs, taken, at, n - 1);
    }
  }

  lemma NothingTaken(recs: seq<Recording>)
    ensures var taken := seq(|recs|, _ => 0); Interleaves(recs, [], taken) && SortedSoFar(recs, [], taken)
  {
  }

  /** The choice, in a run: either everything is read or one more sample can be taken. */
  lemma {:induction false} ChosenHead(recs: seq<Recording>, trace: seq<Taken>, taken: seq<nat>)
    requires TimesInOrder(recs) && Interleaves(recs, trace, taken) && SortedSoFar(recs, trace, taken)
    ensures |taken| == |recs|
    ensures var (found, at) := Choose(HeadsOf(recs, taken), |recs|);
            if found < 0 then forall f: nat :: f < |recs| ==> HeadOf(recs[f], taken[f]).None?
            else
              && at.Some? && at.value < |recs| && Exists(recs, Taken(at.value, taken[at.value]))
              && var trace' := trace + [Taken(at.value, taken[at.value])];
                 var taken' := taken[at.value := taken[at.value] + 1];
                 Interleaves(recs, trace', taken') && SortedSoFar(recs, trace', taken')
  {
    hide Choose, CountOf;
    var heads := HeadsOf(recs, taken);
    ChooseEarliest(heads, |recs|);
    assert heads[..|recs|] == heads;
    var (found, at) := Choose(heads, |recs|);
    if found >= 0 {
      TakeOne(recs, trace, taken, at.value);
    }
  }

  lemma {:induction false} RunEnds(recs: seq<Recording>, trace: seq<Taken>, taken: seq<nat>)
    requires TimesInOrder(recs) && Interleaves(recs, trace, taken) && SortedSoFar(recs, trace, taken)
    requires forall f: nat :: f < |recs| ==> HeadOf(recs[f], taken[f]).None? && taken[f] <= |recs[f].entries|
    ensures Interleaves(recs, trace, seq(|recs|, f requires 0 <= f < |recs| => |recs[f].entries|))
    ensures forall p, q :: 0 <= p < q < |trace| ==> NotAfter(recs, trace[p], trace[q])
    ensures forall p: nat :: p < |trace| ==> Exists(recs, trace[p])
  {
    hide CountOf;
    assert taken == seq(|recs|, f requires 0 <= f < |recs| => |recs[f].entries|);
  }
}

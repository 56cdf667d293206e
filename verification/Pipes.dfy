/**
 Pipes and the node that reads them. A pipe queues messages and gives its node one token for each;
 the node takes a token and then a message. Every critical section is one step.
 */
module Pipes {
  import opened Bytes

  datatype Message = Message(id: nat, blocking: bool, nonBlocking: bool, shutdown: bool)

  datatype Mode = KeepOldest | KeepLatest

  datatype Code = OK | PAUSED | CLOSED | SHUTDOWN | OVERFLOW

  /** A push returns a code, throws because the pipe overflows, or waits to try again. */
  datatype PushResult = Returned(code: Code) | Overflowed | Waits

  datatype Queued = Queued(msg: Message, time: int)

  datatype PipeState = PipeState(
    open: bool, paused: bool, shut: bool, mode: Mode, priority: int, maxTime: int, maxSize: int, queue: seq<Queued>)

  predicate IsFull(p: PipeState) {
    && p.queue != []
    && ((p.maxTime > 0 && p.queue[|p.queue| - 1].time - p.queue[0].time >= p.maxTime)
        || (p.maxSize > 0 && |p.queue| >= p.maxSize))
  }

  /** A full pipe that keeps the latest messages drops its first one, unless that one may not be lost. */
  predicate DropsFirst(p: PipeState) {
    !p.shut && !p.paused && IsFull(p) && p.mode == KeepLatest && !p.queue[0].msg.blocking
  }

  function PushResultOf(p: PipeState, msg: Message): PushResult {
    if p.shut then Returned(SHUTDOWN)
    else if !DropsFirst(p) && (p.paused || IsFull(p)) then
      if !msg.blocking then Returned(if IsFull(p) then OVERFLOW else PAUSED)
      else if msg.nonBlocking then Overflowed
      else Waits
    else if !p.open then Returned(CLOSED)
    else Returned(OK)
  }

  /** The queue after a push. */
  function PushQueue(p: PipeState, msg: Message, now: int): seq<Queued> {
    var kept := if DropsFirst(p) then p.queue[1..] else p.queue;
    if PushResultOf(p, msg) == Returned(OK) then kept + [Queued(msg, now)] else kept
  }

  /** The node hears of a message unless it takes the place of another one. */
  predicate Notifies(p: PipeState, msg: Message) {
    PushResultOf(p, msg) == Returned(OK) && !DropsFirst(p)
  }

  /** A pipe that reached its size limit, or whose queue spans its time limit. */
  predicate AtLimit(p: PipeState) {
    || (p.maxSize > 0 && |p.queue| >= p.maxSize)
    || (p.maxTime > 0 && |p.queue| > 1 && p.queue[|p.queue| - 1].time >= p.queue[0].time + p.maxTime)
  }

  /** What a push is for: every outcome with the pipes and messages it is for, and the queue it leaves. */
  predicate Outcome(p: PipeState, msg: Message, now: int, r: PushResult, queue: seq<Queued>) {
    match r
    case Returned(OK) =>
      && p.open && !p.shut && !p.paused
      && if AtLimit(p) then
           && p.mode == KeepLatest && !p.queue[0].msg.blocking
           && |queue| == |p.queue| && queue[|queue| - 1] == Queued(msg, now)
           && forall i :: 0 <= i < |queue| - 1 ==> queue[i] == p.queue[i + 1]
         else queue == p.queue + [Queued(msg, now)]
    case Returned(SHUTDOWN) => p.shut && queue == p.queue
    case Returned(CLOSED) =>
      && !p.open && !p.shut && !p.paused
      && if AtLimit(p) then p.mode == KeepLatest && !p.queue[0].msg.blocking && queue == p.queue[1..]
         else queue == p.queue
    case Returned(OVERFLOW) => Refused(p) && AtLimit(p) && !msg.blocking && queue == p.queue
    case Returned(PAUSED) => Refused(p) && !AtLimit(p) && !msg.blocking && queue == p.queue
    case Overflowed => Refused(p) && msg.blocking && msg.nonBlocking && queue == p.queue
    case Waits => Refused(p) && msg.blocking && !msg.nonBlocking && queue == p.queue
  }

  /** No room: the pipe is paused, or it is at its limit and may not drop its first message. */
  predicate Refused(p: PipeState) {
    && !p.shut
    && (p.paused || (AtLimit(p) && (p.mode == KeepOldest || p.queue[0].msg.blocking)))
  }

  lemma FullIsAtLimit(p: PipeState)
    ensures IsFull(p) <==> AtLimit(p)
  {
  }

  lemma PushOutcome(p: PipeState, msg: Message, now: int)
    ensures Outcome(p, msg, now, PushResultOf(p, msg), PushQueue(p, msg, now))
  {
    FullIsAtLimit(p);
  }

  // ---------------------------------------------------------------------------------------------
  // Tokens

  /** Tokens in the order of their priority; no entry is empty. */
  type NotifyMap = seq<(int, seq<nat>)>

  predicate Sorted(m: NotifyMap) {
    && (forall i, j :: 0 <= i < j < |m| ==> m[i].0 < m[j].0)
    && forall i :: 0 <= i < |m| ==> m[i].1 != []
  }

  function Tokens(m: NotifyMap): seq<nat> {
    if m == [] then [] else m[0].1 + Tokens(m[1..])
  }

  function AddToken(m: NotifyMap, priority: int, pipe: nat): NotifyMap {
    if m == [] || priority < m[0].0 then [(priority, [pipe])] + m
    else if m[0].0 == priority then [(priority, m[0].1 + [pipe])] + m[1..]
    else [m[0]] + AddToken(m[1..], priority, pipe)
  }

  function DropToken(m: NotifyMap): NotifyMap
    requires m != [] && m[0].1 != []
  {
    if |m[0].1| == 1 then m[1..] else [(m[0].0, m[0].1[1..])] + m[1..]
  }

  function Count(m: NotifyMap, pipe: nat): nat {
    multiset(Tokens(m))[pipe]
  }

  lemma {:induction false} AddTokenAdds(m: NotifyMap, priority: int, pipe: nat)
    ensures multiset(Tokens(AddToken(m, priority, pipe))) == multiset(Tokens(m)) + multiset{pipe}
  {
    var m' := AddToken(m, priority, pipe);
    if m == [] || priority < m[0].0 {
      assert m'[1..] == m;
    } else if m[0].0 == priority {
      assert m'[1..] == m[1..];
    } else {
      AddTokenAdds(m[1..], priority, pipe);
      assert m'[1..] == AddToken(m[1..], priority, pipe);
    }
  }

  lemma {:induction false} AddTokenSorted(m: NotifyMap, priority: int, pipe: nat)
    requires Sorted(m)
    ensures var m' := AddToken(m, priority, pipe);
            && Sorted(m')
            && forall i :: 0 <= i < |m'| ==> m'[i].0 == priority || (m != [] && m[0].0 <= m'[i].0)
  {
    if m != [] && m[0].0 < priority {
      AddTokenSorted(m[1..], priority, pipe);
    }
  }

  /** The place of a new token. */
  lemma {:induction false} AddTokenAt(m: NotifyMap, i: nat, priority: int, pipe: nat)
    requires i <= |m| && (forall k :: 0 <= k < i ==> m[k].0 < priority) && (i < |m| ==> m[i].0 >= priority)
    ensures AddToken(m, priority, pipe) ==
              if i < |m| && m[i].0 == priority then m[i := (priority, m[i].1 + [pipe])]
              else m[..i] + [(priority, [pipe])] + m[i..]
    decreases i
  {
    if i > 0 {
      AddTokenAt(m[1..], i - 1, priority, pipe);
      assert AddToken(m, priority, pipe) == [m[0]] + AddToken(m[1..], priority, pipe);
      hide AddToken;
      if i < |m| && m[i].0 == priority {
        assert m[1..][i - 1] == m[i];
        UpdateFurther(m, i, (priority, m[i].1 + [pipe]));
      } else {
        OneFurther(m, i, [(priority, [pipe])], 0);
      }
    } else {
      assert m[..0] == [] && m[0..] == m;
    }
  }

  lemma UpdateFurther(m: NotifyMap, i: nat, x: (int, seq<nat>))
    requires 0 < i < |m|
    ensures [m[0]] + m[1..][i - 1 := x] == m[i := x]
  {
  }

  lemma OneFurther(m: NotifyMap, i: nat, x: NotifyMap, n: nat)
    requires 0 < i <= i + n <= |m|
    ensures [m[0]] + (m[1..][..i - 1] + x + m[1..][i - 1 + n..]) == m[..i] + x + m[i + n..]
  {
  }

  lemma {:induction false} DropTokenDrops(m: NotifyMap)
    requires Sorted(m) && m != []
    ensures Sorted(DropToken(m)) && Tokens(m) == [m[0].1[0]] + Tokens(DropToken(m))
  {
    var m' := DropToken(m);
    if |m[0].1| == 1 {
      assert m[0].1 == [m[0].1[0]];
    } else {
      assert m'[1..] == m[1..];
      assert m[0].1 == [m[0].1[0]] + m[0].1[1..];
    }
  }

  // ---------------------------------------------------------------------------------------------
  // The objects

  class Node {
    var notifyMap: NotifyMap
    var doRun: bool

    constructor ()
      ensures notifyMap == [] && doRun
    {
      notifyMap, doRun := [], true;
    }

    /** `notify`: a token for the pipe, behind those of the same priority. */
    method Notify(priority: int, pipe: nat)
      requires Sorted(notifyMap)
      modifies this`notifyMap
      ensures Sorted(notifyMap) && notifyMap == AddToken(old(notifyMap), priority, pipe)
    {
      AddTokenSorted(notifyMap, priority, pipe);
      var i := 0;
      while i < |notifyMap| && notifyMap[i].0 < priority
        invariant 0 <= i <= |notifyMap| && forall k :: 0 <= k < i ==> notifyMap[k].0 < priority
      {
        i := i + 1;
      }
      AddTokenAt(notifyMap, i, priority, pipe);
      if i < |notifyMap| && notifyMap[i].0 == priority {
        notifyMap := notifyMap[i := (priority, notifyMap[i].1 + [pipe])];
      } else {
        notifyMap := notifyMap[..i] + [(priority, [pipe])] + notifyMap[i..];
      }
    }

    /** `pop_next`: the oldest token of the most urgent priority. */
    method PopNext() returns (pipe: Option<nat>)
      requires Sorted(notifyMap)
      modifies this`notifyMap
      ensures Sorted(notifyMap)
      ensures if old(notifyMap) == [] then pipe.None? && notifyMap == []
              else pipe == Some(Tokens(old(notifyMap))[0]) && notifyMap == DropToken(old(notifyMap))
      ensures pipe.Some? ==>
                var (priority, queue) := old(notifyMap)[0];
                && pipe.value == queue[0]
                && forall i :: 0 < i < |old(notifyMap)| ==> priority < old(notifyMap)[i].0
    {
      if notifyMap == [] {
        return None;
      }
      DropTokenDrops(notifyMap);
      var (priority, queue) := notifyMap[0];
      pipe := Some(queue[0]);
      queue := queue[1..];
      if queue == [] {
        notifyMap := notifyMap[1..];
      } else {
        notifyMap := notifyMap[0 := (priority, queue)];
      }
    }
  }

  class Pipe {
    const id: nat
    var open: bool
    var paused: bool
    var shut: bool
    var mode: Mode
    var priority: int
    var maxTime: int
    var maxSize: int
    var queue: seq<Queued>

    function State(): PipeState
      reads this
    {
      PipeState(open, paused, shut, mode, priority, maxTime, maxSize, queue)
    }

    constructor (id: nat)
      ensures this.id == id && State() == PipeState(false, false, false, KeepOldest, 0, 0, 0, [])
    {
      this.id := id;
      open, paused, shut, mode, priority, maxTime, maxSize, queue := false, false, false, KeepOldest, 0, 0, 0, [];
    }

    /** `push`, one turn of its waiting loop. */
    method Push(node: Node, msg: Message, now: int) returns (r: PushResult)
      requires Sorted(node.notifyMap)
      modifies this`queue, node`notifyMap
      ensures Sorted(node.notifyMap)
      ensures r == old(PushResultOf(State(), msg))
      ensures State() == old(State()).(queue := old(PushQueue(State(), msg, now)))
      ensures node.notifyMap ==
                if old(Notifies(State(), msg)) then AddToken(old(node.notifyMap), priority, id) else old(node.notifyMap)
      ensures Outcome(old(State()), msg, now, r, queue)
    {
      PushOutcome(State(), msg, now);
      var doNotify := true;
      if !shut {
        var isFull := queue != [] && ((maxTime > 0 && queue[|queue| - 1].time - queue[0].time >= maxTime)
                                      || (maxSize > 0 && |queue| >= maxSize));
        if !paused && isFull && mode == KeepLatest && !queue[0].msg.blocking {
          queue := queue[1..];
          doNotify := false;
        } else if paused || isFull {
          if msg.blocking {
            if msg.nonBlocking {
              return Overflowed;
            }
            return Waits;
          }
          return Returned(if isFull then OVERFLOW else PAUSED);
        }
      }
      if shut {
        return Returned(SHUTDOWN);
      }
      if !open {
        return Returned(CLOSED);
      }
      queue := queue + [Queued(msg, now)];
      if doNotify {
        node.Notify(priority, id);
      }
      r := Returned(OK);
    }

    method Pop() returns (msg: Option<Message>)
      modifies this`queue
      ensures if old(queue) == [] then msg.None? && queue == []
              else msg == Some(old(queue)[0].msg) && queue == old(queue)[1..]
    {
      msg := None;
      if queue != [] {
        msg := Some(queue[0].msg);
        queue := queue[1..];
      }
    }

    /** `close`: what is left in the queue is handed back to be answered. */
    method Close() returns (leftover: seq<Message>)
      modifies this`open, this`queue
      ensures !open && queue == [] && leftover == Messages(old(queue))
    {
      open := false;
      leftover := [];
      ghost var was := queue;
      while queue != []
        invariant leftover + Messages(queue) == Messages(was) && !open
        decreases |queue|
      {
        leftover := leftover + [queue[0].msg];
        queue := queue[1..];
      }
    }
  }

  function Messages(queue: seq<Queued>): (msgs: seq<Message>)
    ensures |msgs| == |queue|
  {
    if queue == [] then [] else [queue[0].msg] + Messages(queue[1..])
  }
}

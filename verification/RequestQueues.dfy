/**
 `RequestQueue`: requests are passed on one at a time, in the order in which they came, and each gets
 one answer. A request is known by the source it was given and its number.
 */
module RequestQueues {
  import opened Bytes

  type Key = (nat, nat)

  datatype Request = Request(source: nat, id: nat, noReturn: bool)

  /** Where a request is: in the queue, passed on, failed with the failure on its way back, or gone. */
  datatype Status = Waiting | Out | Failing | Gone

  /** A request that left the queue: passed on, failed, or purged. */
  datatype Fate = Sent | NotSent | Purged
  datatype Left = Left(key: Key, fate: Fate)

  predicate Distinct(s: seq<Key>) {
    forall i, j :: 0 <= i < j < |s| ==> s[i] != s[j]
  }

  function KeysOf(left: seq<Left>): (keys: seq<Key>)
    ensures |keys| == |left| && forall i :: 0 <= i < |keys| ==> keys[i] == left[i].key
  {
    seq(|left|, i requires 0 <= i < |left| => left[i].key)
  }

  /** Requests leave the queue in the order in which they came. */
  predicate InOrder(arrived: seq<Key>, left: seq<Left>, queue: seq<Key>) {
    arrived == KeysOf(left) + queue && Distinct(arrived)
  }

  /** The status of every request; what is gone has been closed, and nothing is closed twice. */
  predicate StatusFits(arrived: seq<Key>, queue: seq<Key>, status: map<Key, Status>, closed: seq<Key>) {
    && (forall k :: k in arrived ==> k in status)
    && (forall k :: k in status ==> k in arrived)
    && (forall k :: k in queue ==> k in status && status[k] == Waiting)
    && (forall k :: k in status && status[k] == Waiting ==> k in queue)
    && Distinct(closed)
    && (forall k :: k in closed ==> k in status)
    && (forall k :: k in status && status[k] == Gone ==> k in closed)
  }

  /** Without `clear` at most one request is out, the active one. */
  predicate OneOut(active: Option<Key>, status: map<Key, Status>, cleared: bool) {
    && (active.Some? ==> active.value in status && status[active.value] == Out)
    && (!cleared ==> forall k :: k in status && status[k] == Out ==> active == Some(k))
  }

  /** Pending is what has not been closed. */
  predicate PendingFits(pending: map<Key, Request>, status: map<Key, Status>, closed: seq<Key>) {
    && (forall k :: k in pending ==> k in status && k !in closed)
    && (forall k :: k in status && k !in closed ==> k in pending)
  }

  /** No request has been answered before it was passed on. */
  predicate NoneEarly(status: map<Key, Status>, closed: seq<Key>) {
    forall k :: k in closed && k in status ==> status[k] == Gone
  }

  /** The requests that a return was handled for while they were in the queue. */
  predicate EarlyFits(status: map<Key, Status>, closed: seq<Key>, early: seq<Key>) {
    && (forall k :: k in early ==> k in closed)
    && (forall k :: k in closed && k in status && status[k] != Gone ==> k in early)
  }

  /** Queued, passed on and not yet returned, or failed with the failure on its way back. */
  predicate Underway(queue: seq<Key>, status: map<Key, Status>, k: Key) {
    k in queue || (k in status && status[k] in {Out, Failing})
  }

  lemma {:induction false} PendingIsUnderway(
      arrived: seq<Key>, queue: seq<Key>, pending: map<Key, Request>, status: map<Key, Status>, closed: seq<Key>,
      early: seq<Key>)
    requires StatusFits(arrived, queue, status, closed) && PendingFits(pending, status, closed)
    requires EarlyFits(status, closed, early)
    ensures forall k :: k in pending <==> Underway(queue, status, k) && k !in early
    ensures (forall k :: k in pending <==> Underway(queue, status, k)) <==> NoneEarly(status, closed)
    ensures NoneEarly(status, closed) <==> forall k :: k in early ==> !Underway(queue, status, k)
  {
    forall k | k in status
      ensures Underway(queue, status, k) <==> status[k] != Gone
    {
    }
    if !NoneEarly(status, closed) {
      var k :| k in closed && k in status && status[k] != Gone;
      assert Underway(queue, status, k) && k !in pending && k in early;
    }
  }

  lemma EarlyKept(was: map<Key, Status>, status: map<Key, Status>, closed: seq<Key>, early: seq<Key>)
    requires EarlyFits(was, closed, early) && forall k :: k in status <==> k in was
    requires forall k :: k in status ==> (status[k] == Gone <==> was[k] == Gone)
    ensures EarlyFits(status, closed, early) && (NoneEarly(status, closed) <==> NoneEarly(was, closed))
  {
  }

  lemma EarlyArrives(status: map<Key, Status>, closed: seq<Key>, early: seq<Key>, key: Key)
    requires EarlyFits(status, closed, early) && key !in closed
    ensures EarlyFits(status[key := Waiting], closed, early)
    ensures NoneEarly(status[key := Waiting], closed) <==> NoneEarly(status, closed)
  {
  }

  /** A request is closed, too early exactly if it is waiting. */
  lemma EarlyCloses(status: map<Key, Status>, closed: seq<Key>, early: seq<Key>, key: Key)
    requires EarlyFits(status, closed, early) && key in status && key !in closed
    ensures var waits := status[key] == Waiting;
            var status' := if waits then status else status[key := Gone];
            && EarlyFits(status', closed + [key], if waits then early + [key] else early)
            && (NoneEarly(status', closed + [key]) <==> NoneEarly(status, closed) && !waits)
  {
    if !NoneEarly(status, closed) {
      var k :| k in closed && k in status && status[k] != Gone;
      assert k in closed + [key] && k != key;
    }
    assert key in closed + [key];
  }

  lemma EarlyPurged(status: map<Key, Status>, closed: seq<Key>, early: seq<Key>, key: Key)
    requires EarlyFits(status, closed, early)
    ensures var closed' := if key !in closed then closed + [key] else closed;
            && EarlyFits(status[key := Gone], closed', early)
            && (NoneEarly(status, closed) ==> NoneEarly(status[key := Gone], closed'))
  {
  }

  lemma QueuedIsWaiting(
      arrived: seq<Key>, queue: seq<Key>, status: map<Key, Status>, closed: seq<Key>, k: Key)
    requires StatusFits(arrived, queue, status, closed) && k in status
    ensures k in queue <==> status[k] == Waiting
  {
  }

  /** Those of the requests that are pending. */
  function PendingOf(queue: seq<Key>, pending: map<Key, Request>): seq<Key> {
    if queue == [] then []
    else (if queue[0] in pending then [queue[0]] else []) + PendingOf(queue[1..], pending)
  }

  /** Taking the first one off changes nothing about the others. */
  lemma {:induction false} PendingOfRest(queue: seq<Key>, pending: map<Key, Request>, k: Key)
    requires k !in queue
    ensures PendingOf(queue, pending - {k}) == PendingOf(queue, pending)
  {
    if queue != [] {
      PendingOfRest(queue[1..], pending, k);
    }
  }

  /** How many requests fail before one goes through; `failing` says which services are gone. */
  function Skipped(queue: seq<Key>, failing: set<Key>): (n: nat)
    ensures n <= |queue| && (forall i :: 0 <= i < n ==> queue[i] in failing)
    ensures n < |queue| ==> queue[n] !in failing
  {
    if queue == [] || queue[0] !in failing then 0 else 1 + Skipped(queue[1..], failing)
  }

  /** What became of the requests that have left the queue since, in order. */
  predicate LeftAs(was: seq<Left>, left: seq<Left>, requests: seq<Key>, failing: set<Key>) {
    && |left| == |was| + |requests| && was <= left
    && forall i: nat :: i < |requests| ==>
         left[|was| + i] == Left(requests[i], if requests[i] in failing then NotSent else Sent)
  }

  lemma FirstLeaves(arrived: seq<Key>, left: seq<Left>, queue: seq<Key>, fate: Fate)
    requires InOrder(arrived, left, queue) && queue != []
    ensures InOrder(arrived, left + [Left(queue[0], fate)], queue[1..])
    ensures queue[0] !in queue[1..] && queue[0] in arrived
  {
    var more := left + [Left(queue[0], fate)];
    assert KeysOf(more) == KeysOf(left) + [queue[0]];
    assert arrived[|left|] == queue[0];
    forall k | k in queue[1..]
      ensures k != queue[0]
    {
      var i :| 0 <= i < |queue| - 1 && queue[1..][i] == k;
      assert arrived[|left| + 1 + i] == k;
    }
  }

  /** A new request at the end of the queue. */
  lemma {:induction false} Arrives(
      arrived: seq<Key>, left: seq<Left>, queue: seq<Key>, status: map<Key, Status>, closed: seq<Key>, key: Key)
    requires InOrder(arrived, left, queue) && StatusFits(arrived, queue, status, closed) && key !in arrived
    ensures InOrder(arrived + [key], left, queue + [key])
    ensures StatusFits(arrived + [key], queue + [key], status[key := Waiting], closed)
  {
    assert arrived + [key] == KeysOf(left) + (queue + [key]);
  }

  lemma NewKey(arrived: seq<Key>, queue: seq<Key>, status: map<Key, Status>, closed: seq<Key>, key: Key)
    requires StatusFits(arrived, queue, status, closed) && key !in arrived
    ensures key !in status && key !in closed
  {
  }

  /** The first request leaves the queue; if it is gone now it is closed, at the latest. */
  lemma {:induction false} Leaves(
      arrived: seq<Key>, queue: seq<Key>, status: map<Key, Status>, closed: seq<Key>, to: Status)
    requires StatusFits(arrived, queue, status, closed) && queue != [] && queue[0] !in queue[1..] && to != Waiting
    ensures queue[0] in status && status[queue[0]] == Waiting
    ensures StatusFits(arrived, queue[1..], status[queue[0] := to],
                       if to == Gone && queue[0] !in closed then closed + [queue[0]] else closed)
  {
    assert queue[0] in queue;
  }

  /** A request is closed; one that is still in the queue stays there. */
  lemma {:induction false} Closes(
      arrived: seq<Key>, queue: seq<Key>, status: map<Key, Status>, closed: seq<Key>, key: Key)
    requires StatusFits(arrived, queue, status, closed) && key in status && key !in closed
    ensures StatusFits(arrived, queue, if status[key] == Waiting then status else status[key := Gone], closed + [key])
  {
  }

  /** The first request is purged: it is closed if it was pending. */
  lemma {:induction false} PurgeFits(
      queue: seq<Key>, pending: map<Key, Request>, status: map<Key, Status>, closed: seq<Key>)
    requires queue != [] && queue[0] !in queue[1..] && queue[0] in status && PendingFits(pending, status, closed)
    ensures var k := queue[0];
            var closed' := if k !in closed then closed + [k] else closed;
            && (k in pending <==> k !in closed)
            && PendingFits(pending - {k}, status[k := Gone], closed')
            && closed' + PendingOf(queue[1..], pending - {k}) == closed + PendingOf(queue, pending)
  {
    var k := queue[0];
    PendingOfRest(queue[1..], pending, k);
    PurgeCloses(pending, status, closed, k);
    var rest := PendingOf(queue[1..], pending);
    assert PendingOf(queue, pending) == (if k in pending then [k] else []) + rest;
    hide PendingOf, PendingFits;
    assert closed + ([k] + rest) == closed + [k] + rest;
    assert [] + rest == rest;
  }

  lemma PurgeCloses(pending: map<Key, Request>, status: map<Key, Status>, closed: seq<Key>, k: Key)
    requires k in status && PendingFits(pending, status, closed)
    ensures k in pending <==> k !in closed
    ensures PendingFits(pending - {k}, status[k := Gone], if k !in closed then closed + [k] else closed)
  {
  }

  lemma PendingKept(pending: map<Key, Request>, was: map<Key, Status>, status: map<Key, Status>, closed: seq<Key>)
    requires PendingFits(pending, was, closed) && forall k :: k in status <==> k in was
    ensures PendingFits(pending, status, closed)
  {
  }

  lemma PendingCloses(
      pending: map<Key, Request>, was: map<Key, Status>, status: map<Key, Status>, closed: seq<Key>, key: Key)
    requires PendingFits(pending, was, closed) && key in pending && forall k :: k in status <==> k in was
    ensures key in was && key !in closed && PendingFits(pending - {key}, status, closed + [key])
  {
  }

  lemma OneOutCloses(active: Option<Key>, status: map<Key, Status>, cleared: bool, k: Key)
    requires OneOut(active, status, cleared) && k in status
    ensures OneOut(if active == Some(k) then None else active,
                   if status[k] == Waiting then status else status[k := Gone], cleared)
  {
  }

  lemma OneOutKeeps(active: Option<Key>, status: map<Key, Status>, cleared: bool, k: Key, to: Status)
    requires OneOut(active, status, cleared) && k in status && active != Some(k) && to != Out
    ensures OneOut(active, status[k := to], cleared)
  {
  }

  class RequestQueue {
    var srcMap: map<nat, nat>
    var pending: map<Key, Request>
    var active: Option<Key>
    var queue: seq<Key>

    ghost var arrived: seq<Key>
    ghost var left: seq<Left>
    ghost var status: map<Key, Status>
    ghost var closed: seq<Key>
    ghost var early: seq<Key>
    ghost var cleared: bool

    ghost predicate Lines()
      reads this
    {
      InOrder(arrived, left, queue) && StatusFits(arrived, queue, status, closed) && OneOut(active, status, cleared)
    }

    ghost predicate Valid()
      reads this
    {
      Lines() && Busy() && PendingFits(pending, status, closed) && EarlyFits(status, closed, early)
    }

    /** Nothing waits unless a request is out. */
    predicate Busy()
      reads this`active, this`queue
    {
      active.Some? || queue == []
    }

    /** `send_next` has passed on what it could of the requests q, or q had to wait for the active one a. */
    predicate Advanced(a: Option<Key>, q: seq<Key>, failing: set<Key>)
      reads this`active, this`queue
    {
      var n := Skipped(q, failing);
      if a.Some? then active == a && queue == q
      else if n == |q| then active.None? && queue == []
      else active == Some(q[n]) && queue == q[n + 1..]
    }

    constructor ()
      ensures Valid() && arrived == [] && !cleared && early == [] && srcMap == map[]
      ensures active.None? && queue == [] && pending == map[] && closed == [] && NoneEarly(status, closed)
    {
      srcMap, pending, active, queue := map[], map[], None, [];
      arrived, left, status, closed, early, cleared := [], [], map[], [], [], false;
    }

    /** `forward`: a request whose source and number have not been used before. */
    method Forward(request: Request, newSource: nat, failing: set<Key>)
      requires Valid() && (KnownAs(request.source, newSource), request.id) !in arrived
      modifies this
      ensures Valid() && cleared == old(cleared) && closed == old(closed) && old(left) <= left
      ensures var source := old(KnownAs(request.source, newSource));
              && srcMap == old(srcMap)[request.source := source]
              && arrived == old(arrived) + [(source, request.id)]
              && pending == old(pending)[(source, request.id) := request]
              && source == if request.source in old(srcMap) then old(srcMap)[request.source] else newSource
      ensures var requests := old(queue) + [(old(KnownAs(request.source, newSource)), request.id)];
              && Advanced(old(active), requests, failing)
              && |requests| >= |queue| && LeftAs(old(left), left, requests[..|requests| - |queue|], failing)
      ensures early == old(early) && (NoneEarly(status, closed) <==> old(NoneEarly(status, closed)))
    {
      hide InOrder, StatusFits, OneOut, LeftAs, EarlyFits, NoneEarly, PendingFits;
      var source := KnownAs(request.source, newSource);
      srcMap := srcMap[request.source := source];
      Add((source, request.id), request);
      ghost var was := status;
      SendNext(failing);
      EarlyKept(was, status, closed, early);
      PendingKept(pending, was, status, closed);
    }

    /** The source a sender got, or gets now. */
    function KnownAs(source: nat, newSource: nat): nat
      reads this`srcMap
    {
      if source in srcMap then srcMap[source] else newSource
    }

    method Add(key: Key, request: Request)
      requires Valid() && key !in arrived
      modifies this`pending, this`queue, this`arrived, this`status
      ensures Lines() && PendingFits(pending, status, closed) && arrived == old(arrived) + [key]
      ensures EarlyFits(status, closed, early) && (NoneEarly(status, closed) <==> old(NoneEarly(status, closed)))
      ensures queue == old(queue) + [key] && pending == old(pending)[key := request]
    {
      hide InOrder, StatusFits, EarlyFits, NoneEarly;
      Arrives(arrived, left, queue, status, closed, key);
      NewKey(arrived, queue, status, closed, key);
      EarlyArrives(status, closed, early, key);
      pending := pending[key := request];
      queue := queue + [key];
      arrived := arrived + [key];
      status := status[key := Waiting];
    }

    /**
     `send_next`: passes requests on until one goes through; a failure comes back as a return. The
     requests in `failing` cannot be sent.
     */
    method SendNext(failing: set<Key>)
      requires Lines()
      modifies this`active, this`queue, this`left, this`status
      ensures Lines() && Busy() && Advanced(old(active), old(queue), failing)
      ensures forall k :: k in status <==> k in old(status)
      ensures forall k :: k in status ==> (status[k] == Gone <==> old(status)[k] == Gone)
      ensures old(left) <= left && |old(queue)| >= |queue|
      ensures LeftAs(old(left), left, old(queue)[..|old(queue)| - |queue|], failing)
      ensures old(active).None? ==>
                forall i: nat :: i < Skipped(old(queue), failing) ==>
                  old(queue)[i] in status && status[old(queue)[i]] == Failing
    {
      hide InOrder, StatusFits;
      ghost var requests, n := queue, 0;
      while active.None? && queue != []
        invariant Lines() && n <= |requests| && queue == requests[n..]
        invariant LeftAs(old(left), left, requests[..n], failing)
        invariant old(active.Some?) ==> active == old(active) && n == 0
        invariant active.None? ==> forall i: nat :: i < n ==>
                      requests[i] in failing && requests[i] in status && status[requests[i]] == Failing
        invariant old(active.None?) && active.Some? ==> n > 0 && active == Some(requests[n - 1])
        invariant old(active.None?) && active.Some? ==> requests[n - 1] !in failing && forall i: nat :: i < n - 1 ==>
                      requests[i] in failing && requests[i] in status && status[requests[i]] == Failing
        invariant forall k :: k in status <==> k in old(status)
        invariant forall k :: k in status ==> (status[k] == Gone <==> old(status)[k] == Gone)
        decreases |queue|
      {
        var request := queue[0];
        var sent := request !in failing;
        FirstLeaves(arrived, left, queue, if sent then Sent else NotSent);
        Leaves(arrived, queue, status, closed, if sent then Out else Failing);
        queue := queue[1..];
        left := left + [Left(request, if sent then Sent else NotSent)];
        n := n + 1;
        if sent {
          active := Some(request);
          status := status[request := Out];
        } else {
          status := status[request := Failing];
        }
      }
    }

    /**
     `handle` of a return: whatever is pending is closed and answered, and if it was the active request
     the next one is passed on. A return may come for a request that is still in the queue; it stays
     there, and when it is active its own return is nobody's, so nothing else is passed on.
     */
    method Handle(key: Key, failing: set<Key>) returns (mine: bool, answered: bool)
      requires Valid()
      modifies this
      ensures Valid() && cleared == old(cleared) && arrived == old(arrived) && old(left) <= left
      ensures mine == (key in old(pending))
      ensures mine ==> key !in old(closed) && closed == old(closed) + [key] && pending == old(pending) - {key}
      ensures if mine && old(active) == Some(key) then
                && Advanced(None, old(queue), failing) && |old(queue)| >= |queue|
                && LeftAs(old(left), left, old(queue)[..|old(queue)| - |queue|], failing)
              else active == old(active) && queue == old(queue) && left == old(left)
      ensures early == old(early) + if mine && key in old(queue) then [key] else []
      ensures NoneEarly(status, closed) <==> old(NoneEarly(status, closed)) && !(mine && key in old(queue))
      ensures mine ==> answered == !old(pending)[key].noReturn
      ensures !mine ==> !answered && closed == old(closed) && pending == old(pending) && status == old(status)
    {
      hide InOrder, StatusFits, LeftAs, PendingFits, OneOut, EarlyFits, NoneEarly, Skipped, Advanced;
      if key !in pending {
        return false, false;
      }
      mine := true;
      answered := !pending[key].noReturn;
      ghost var was, before := status, closed;
      PendingCloses(pending, was, was, before, key);
      var next := Close(key);
      ghost var now := status;
      if next {
        SendNext(failing);
      }
      PendingCloses(pending, was, status, before, key);
      EarlyKept(now, status, closed, early);
      pending := pending - {key};
    }

    /** A pending request is closed, and is not active any more. */
    method Close(key: Key) returns (next: bool)
      requires Lines() && EarlyFits(status, closed, early) && key in status && key !in closed
      modifies this`closed, this`early, this`status, this`active
      ensures Lines() && EarlyFits(status, closed, early) && closed == old(closed) + [key]
      ensures next == (old(active) == Some(key)) && active == if next then None else old(active)
      ensures forall k :: k in status <==> k in old(status)
      ensures early == old(early) + if key in queue then [key] else []
      ensures NoneEarly(status, closed) <==> old(NoneEarly(status, closed)) && key !in queue
    {
      hide InOrder, StatusFits, OneOut, EarlyFits, NoneEarly;
      OneOutCloses(active, status, cleared, key);
      Closes(arrived, queue, status, closed, key);
      EarlyCloses(status, closed, early, key);
      QueuedIsWaiting(arrived, queue, status, closed, key);
      closed := closed + [key];
      if status[key] == Waiting {
        early := early + [key];
      } else {
        status := status[key := Gone];
      }
      next := active == Some(key);
      if next {
        active := None;
      }
    }

    /** The active request has been answered before it was passed on. */
    ghost predicate Stuck()
      reads this
    {
      active.Some? && active.value in closed
    }

    /** No return gets a stuck queue going again; only `clear` does. */
    method HandleWhenStuck(key: Key, failing: set<Key>)
      requires Valid() && Stuck()
      modifies this
      ensures Valid() && Stuck() && active == old(active) && queue == old(queue)
    {
      var mine, answered := Handle(key, failing);
    }

    /** `purge`: everything in the queue is answered with an error, unless it was answered before. */
    method Purge()
      requires Valid()
      modifies this`queue, this`pending, this`left, this`status, this`closed
      ensures Valid() && queue == [] && closed == old(closed) + PendingOf(old(queue), old(pending))
      ensures |left| == |old(left)| + |old(queue)| && old(left) <= left
      ensures forall i: nat :: i < |old(queue)| ==> left[|old(left)| + i] == Left(old(queue)[i], Purged)
      ensures forall k :: k in old(status) && old(status)[k] != Waiting ==> k in status && status[k] == old(status)[k]
      ensures old(NoneEarly(status, closed)) ==> NoneEarly(status, closed)
    {
      hide InOrder, StatusFits, PendingFits, OneOut, EarlyFits, NoneEarly;
      ghost var requests, n := queue, 0;
      while queue != []
        invariant Valid() && n <= |requests| && queue == requests[n..]
        invariant closed + PendingOf(queue, pending) == old(closed) + PendingOf(requests, old(pending))
        invariant |left| == |old(left)| + n && old(left) <= left
        invariant forall i: nat :: i < n ==> left[|old(left)| + i] == Left(requests[i], Purged)
        invariant forall k :: k in old(status) && old(status)[k] != Waiting ==>
                    k in status && status[k] == old(status)[k]
        invariant old(NoneEarly(status, closed)) ==> NoneEarly(status, closed)
        decreases |queue|
      {
        PurgeOne();
        n := n + 1;
      }
    }

    method PurgeOne()
      requires Valid() && queue != []
      modifies this`queue, this`pending, this`left, this`status, this`closed
      ensures Valid() && queue == old(queue)[1..] && left == old(left) + [Left(old(queue)[0], Purged)]
      ensures closed + PendingOf(queue, pending) == old(closed) + PendingOf(old(queue), old(pending))
      ensures forall k :: k in old(status) && old(status)[k] != Waiting ==> k in status && status[k] == old(status)[k]
      ensures old(NoneEarly(status, closed)) ==> NoneEarly(status, closed)
    {
      hide InOrder, StatusFits, PendingFits, PendingOf, EarlyFits, NoneEarly;
      var request := queue[0];
      FirstLeaves(arrived, left, queue, Purged);
      Leaves(arrived, queue, status, closed, Gone);
      PurgeFits(queue, pending, status, closed);
      EarlyPurged(status, closed, early, request);
      OneOutKeeps(active, status, cleared, request, Gone);
      hide OneOut;
      queue := queue[1..];
      left := left + [Left(request, Purged)];
      status := status[request := Gone];
      if request in pending {
        closed := closed + [request];
      }
      pending := pending - {request};
    }

    /** `clear`: after this more than one request can be out. */
    method Clear()
      requires Valid()
      modifies this
      ensures Valid() && queue == [] && active.None? && arrived == old(arrived) && old(left) <= left
      ensures closed == old(closed) + PendingOf(old(queue), old(pending)) && early == old(early) && cleared
      ensures old(NoneEarly(status, closed)) ==> NoneEarly(status, closed)
    {
      hide InOrder, StatusFits, PendingFits, EarlyFits, NoneEarly;
      Purge();
      active := None;
      cleared := true;
    }
  }

  // ---------------------------------------------------------------------------------------------
  // Runs

  /**
   A queue is stuck exactly if its active request was answered while it was still in the queue. So it
   cannot get stuck as long as no return is handled for such a request.
   */
  lemma {:induction false} StuckExactly(q: RequestQueue)
    requires q.Valid()
    ensures q.Stuck() <==> q.active.Some? && q.active.value in q.early
    ensures NoneEarly(q.status, q.closed) ==> !q.Stuck()
    ensures q.early == [] ==> NoneEarly(q.status, q.closed)
  {
    hide InOrder, PendingFits;
    if q.active.Some? {
      assert q.active.value in q.status && q.status[q.active.value] == Out;
    }
  }

  /**
   In every run pending are the requests under way but for those that were answered while they were in
   the queue. So they are exactly the ones under way if and only if no return was handled for a request
   that was still in the queue and is under way now; above all if `early` is empty.
   */
  lemma {:induction false} PendingExactly(q: RequestQueue)
    requires q.Valid()
    ensures forall k :: k in q.pending <==> Underway(q.queue, q.status, k) && k !in q.early
    ensures (forall k :: k in q.pending <==> Underway(q.queue, q.status, k))
            <==> forall k :: k in q.early ==> !Underway(q.queue, q.status, k)
  {
    hide InOrder, StatusFits, PendingFits, EarlyFits, OneOut, NoneEarly, Underway;
    PendingIsUnderway(q.arrived, q.queue, q.pending, q.status, q.closed, q.early);
  }

  datatype Call =
    | ForwardCall(request: Request, newSource: nat, failing: set<Key>)
    | HandleCall(key: Key, failing: set<Key>)
    | PurgeCall
    | ClearCall

  /**
   Any call. What `early` is for: it gets the requests that a return is handled for while they are in the
   queue, and nothing else. A stuck queue stays stuck until it is cleared.
   */
  method Make(q: RequestQueue, call: Call)
    requires q.Valid()
    requires call.ForwardCall? ==> (q.KnownAs(call.request.source, call.newSource), call.request.id) !in q.arrived
    modifies q
    ensures q.Valid()
    ensures q.early == old(q.early)
                       + if call.HandleCall? && call.key in old(q.pending) && call.key in old(q.queue) then [call.key]
                         else []
    ensures !call.ClearCall? && old(q.Stuck()) ==> q.Stuck() && q.active == old(q.active)
    ensures call.ClearCall? ==> !q.Stuck()
  {
    hide InOrder, StatusFits, PendingFits, OneOut, EarlyFits, NoneEarly, LeftAs;
    match call
    case ForwardCall(request, newSource, failing) =>
      q.Forward(request, newSource, failing);
    case HandleCall(key, failing) =>
      var mine, answered := q.Handle(key, failing);
    case PurgeCall =>
      q.Purge();
    case ClearCall =>
      q.Clear();
  }

  /** Two requests: the first one is passed on, the second one waits. */
  method TwoRequests() returns (q: RequestQueue)
    ensures fresh(q) && q.Valid() && q.active == Some((7, 1)) && q.queue == [(7, 2)]
    ensures (7, 1) in q.pending && (7, 2) in q.pending && q.closed == [] && q.early == []
  {
    hide InOrder, StatusFits, PendingFits, OneOut, EarlyFits, NoneEarly, LeftAs;
    q := new RequestQueue();
    q.Forward(Request(1, 1, false), 7, {});
    q.Forward(Request(1, 2, false), 7, {});
  }

  /**
   Four calls that get a new queue stuck: two requests come, the second one is answered while it waits
   for the first, and then the first one is answered.
   */
  method GetStuck() returns (q: RequestQueue)
    ensures fresh(q) && q.Valid() && q.Stuck() && q.active == Some((7, 2)) && q.queue == []
  {
    hide InOrder, StatusFits, PendingFits, OneOut, EarlyFits, NoneEarly, LeftAs;
    q := TwoRequests();
    var mine, answered := q.Handle((7, 2), {});
    assert q.closed == [(7, 2)];
    mine, answered := q.Handle((7, 1), {});
    assert q.closed == [(7, 2), (7, 1)];
  }
}

/** A node with its pipes, over all interleavings of senders, the reader and whoever closes pipes. */
module PipeRuns {
  import opened Bytes
  import opened Pipes

  /** What became of an accepted message that is no longer queued. */
  datatype Fate = Taken | Dropped | LeftOver

  datatype Gone = Gone(msg: Message, fate: Fate)

  /** A pipe with everything it accepted and everything that left it. */
  datatype Tracked = Tracked(pipe: PipeState, accepted: seq<Message>, gone: seq<Gone>)

  /** The reader holds a token between taking it and taking the message. */
  datatype World = World(
    pipes: map<nat, Tracked>, notify: NotifyMap, held: Option<nat>, running: bool)

  datatype Step =
    | Open(pipe: nat, mode: Mode, priority: int, maxTime: int, maxSize: int)
    | Push(pipe: nat, msg: Message, now: int)
    | Pause(pipe: nat)
    | Resume(pipe: nat)
    | ShutPipe(pipe: nat)
    | ClosePipe(pipe: nat)
    | PopNext
    | PopMsg
    | Exit

  const START := World(map[], [], None, true)

  function AllGone(queue: seq<Queued>, fate: Fate): (gone: seq<Gone>)
    ensures |gone| == |queue|
  {
    if queue == [] then [] else [Gone(queue[0].msg, fate)] + AllGone(queue[1..], fate)
  }

  function PushTo(t: Tracked, msg: Message, now: int): Tracked {
    Tracked(t.pipe.(queue := PushQueue(t.pipe, msg, now)),
            if PushResultOf(t.pipe, msg) == Returned(OK) then t.accepted + [msg] else t.accepted,
            if DropsFirst(t.pipe) then t.gone + [Gone(t.pipe.queue[0].msg, Dropped)] else t.gone)
  }

  function PopFrom(t: Tracked): Tracked {
    if t.pipe.queue == [] then t
    else
      t.(pipe := t.pipe.(queue := t.pipe.queue[1..]),
         gone := t.gone + [Gone(t.pipe.queue[0].msg, Taken)])
  }

  function CloseOf(t: Tracked): Tracked {
    t.(pipe := t.pipe.(open := false, queue := []), gone := t.gone + AllGone(t.pipe.queue, LeftOver))
  }

  function Change(w: World, pipe: nat, t: Tracked): World {
    w.(pipes := w.pipes[pipe := t])
  }

  function Next(w: World, step: Step): World {
    match step
    case Open(p, mode, priority, maxTime, maxSize) =>
      if p in w.pipes || !w.running then w
      else Change(w, p, Tracked(PipeState(true, false, false, mode, priority, maxTime, maxSize, []), [], []))
    case Push(p, msg, now) =>
      if p !in w.pipes then w
      else
        var t := w.pipes[p];
        Change(w, p, PushTo(t, msg, now)).(
          notify := if Notifies(t.pipe, msg) then AddToken(w.notify, t.pipe.priority, p) else w.notify)
    case Pause(p) =>
      if p in w.pipes then Change(w, p, w.pipes[p].(pipe := w.pipes[p].pipe.(paused := true))) else w
    case Resume(p) =>
      if p in w.pipes then Change(w, p, w.pipes[p].(pipe := w.pipes[p].pipe.(paused := false))) else w
    case ShutPipe(p) =>
      if p in w.pipes then Change(w, p, w.pipes[p].(pipe := w.pipes[p].pipe.(shut := true))) else w
    case ClosePipe(p) =>
      if p in w.pipes then Change(w, p, CloseOf(w.pipes[p])) else w
    case PopNext =>
      // a reader that saw the node running may take its token after the node was stopped
      if w.held.Some? || w.notify == [] || w.notify[0].1 == [] then w
      else w.(held := Some(w.notify[0].1[0]), notify := DropToken(w.notify))
    case PopMsg =>
      if w.held.None? || w.held.value !in w.pipes then w
      else
        var t := w.pipes[w.held.value];
        var after := Change(w, w.held.value, PopFrom(t)).(held := None);
        // a SHUTDOWN message is not for the reader, it stops the node
        if t.pipe.queue != [] && t.pipe.queue[0].msg.shutdown then after.(running := false) else after
    case Exit => w.(running := false)
  }

  function Run(w: World, steps: seq<Step>): World {
    if steps == [] then w else Next(Run(w, steps[..|steps| - 1]), steps[|steps| - 1])
  }

  // ---------------------------------------------------------------------------------------------
  // What every step keeps

  function MessagesOf(gone: seq<Gone>): (msgs: seq<Message>)
    ensures |msgs| == |gone|
  {
    if gone == [] then [] else MessagesOf(gone[..|gone| - 1]) + [gone[|gone| - 1].msg]
  }

  /** First in, first out: what left and what is queued is what was accepted, in order. */
  predicate InOrder(t: Tracked) {
    t.accepted == MessagesOf(t.gone) + Messages(t.pipe.queue)
  }

  /** Only messages that may be lost are dropped, and nothing is left over before the pipe is closed. */
  predicate NothingLost(t: Tracked) {
    forall g :: g in t.gone ==> (g.fate == Dropped ==> !g.msg.blocking) && (g.fate == LeftOver ==> !t.pipe.open)
  }

  predicate WithinSize(t: Tracked) {
    t.pipe.maxSize > 0 ==> |t.pipe.queue| <= t.pipe.maxSize
  }

  function HeldFor(held: Option<nat>, pipe: nat): nat {
    if held == Some(pipe) then 1 else 0
  }

  /** An open pipe has as many messages as tokens. */
  predicate Counted(notify: NotifyMap, held: Option<nat>, pipe: nat, t: Tracked) {
    if t.pipe.open then |t.pipe.queue| == Count(notify, pipe) + HeldFor(held, pipe) else t.pipe.queue == []
  }

  predicate Fine(notify: NotifyMap, held: Option<nat>, pipe: nat, t: Tracked) {
    InOrder(t) && NothingLost(t) && WithinSize(t) && Counted(notify, held, pipe, t)
  }

  predicate Invariant(w: World) {
    && Sorted(w.notify)
    && (forall p :: p in w.pipes ==> Fine(w.notify, w.held, p, w.pipes[p]))
    && (forall p :: p in multiset(Tokens(w.notify)) ==> p in w.pipes)
    && (w.held.Some? ==> w.held.value in w.pipes)
  }

  lemma MessagesAppend(queue: seq<Queued>, q: Queued)
    ensures Messages(queue + [q]) == Messages(queue) + [q.msg]
  {
    if queue != [] {
      assert (queue + [q])[1..] == queue[1..] + [q];
      MessagesAppend(queue[1..], q);
    }
  }

  lemma GoneAppend(gone: seq<Gone>, g: Gone)
    ensures MessagesOf(gone + [g]) == MessagesOf(gone) + [g.msg]
  {
    assert (gone + [g])[..|gone|] == gone;
  }

  /** The first message is dropped. */
  function DropFrom(t: Tracked): Tracked
    requires t.pipe.queue != []
  {
    t.(pipe := t.pipe.(queue := t.pipe.queue[1..]), gone := t.gone + [Gone(t.pipe.queue[0].msg, Dropped)])
  }

  lemma {:induction false} DropKeepsOrder(t: Tracked)
    requires InOrder(t) && NothingLost(t) && WithinSize(t) && t.pipe.queue != [] && !t.pipe.queue[0].msg.blocking
    ensures InOrder(DropFrom(t)) && NothingLost(DropFrom(t)) && WithinSize(DropFrom(t))
  {
    hide MessagesOf, Messages;
    FirstGoes(t.accepted, t.gone, t.pipe.queue, Dropped);
    GoneKeeps(t, Gone(t.pipe.queue[0].msg, Dropped), t.pipe.(queue := t.pipe.queue[1..]));
  }

  /** The first message moves from the queue to those that left it. */
  lemma {:induction false} FirstGoes(accepted: seq<Message>, gone: seq<Gone>, queue: seq<Queued>, fate: Fate)
    requires queue != [] && accepted == MessagesOf(gone) + Messages(queue)
    ensures accepted == MessagesOf(gone + [Gone(queue[0].msg, fate)]) + Messages(queue[1..])
  {
    var first, rest := queue[0].msg, Messages(queue[1..]);
    hide Messages, MessagesOf;
    GoneAppend(gone, Gone(first, fate));
    MessagesFirst(queue);
    Regroup(MessagesOf(gone), first, rest);
  }

  lemma MessagesFirst(queue: seq<Queued>)
    requires queue != []
    ensures Messages(queue) == [queue[0].msg] + Messages(queue[1..])
  {
  }

  lemma Regroup(a: seq<Message>, m: Message, b: seq<Message>)
    ensures a + ([m] + b) == a + [m] + b
  {
  }

  lemma GoneKeeps(t: Tracked, g: Gone, pipe: PipeState)
    requires NothingLost(t) && pipe.open == t.pipe.open
    requires g.fate == Dropped ==> !g.msg.blocking
    requires g.fate != LeftOver
    ensures NothingLost(t.(pipe := pipe, gone := t.gone + [g]))
  {
  }

  /** A message is accepted. */
  function AcceptTo(t: Tracked, msg: Message, now: int): Tracked {
    t.(pipe := t.pipe.(queue := t.pipe.queue + [Queued(msg, now)]), accepted := t.accepted + [msg])
  }

  lemma {:induction false} AcceptKeepsOrder(t: Tracked, msg: Message, now: int)
    requires InOrder(t) && NothingLost(t)
    ensures InOrder(AcceptTo(t, msg, now)) && NothingLost(AcceptTo(t, msg, now))
  {
    hide MessagesOf, Messages;
    MessagesAppend(t.pipe.queue, Queued(msg, now));
    assert MessagesOf(t.gone) + Messages(t.pipe.queue) + [msg] == MessagesOf(t.gone) + (Messages(t.pipe.queue) + [msg]);
  }

  /** A push drops first, if it has to, and then accepts, if it can. */
  lemma PushInSteps(t: Tracked, msg: Message, now: int)
    ensures DropsFirst(t.pipe) ==> t.pipe.queue != [] && !t.pipe.queue[0].msg.blocking
    ensures var kept := if DropsFirst(t.pipe) then DropFrom(t) else t;
            PushTo(t, msg, now) == if PushResultOf(t.pipe, msg) == Returned(OK) then AcceptTo(kept, msg, now) else kept
  {
  }

  lemma {:induction false} PushKeepsOrder(t: Tracked, msg: Message, now: int)
    requires InOrder(t) && NothingLost(t) && WithinSize(t) && (!t.pipe.open ==> t.pipe.queue == [])
    ensures InOrder(PushTo(t, msg, now)) && NothingLost(PushTo(t, msg, now)) && WithinSize(PushTo(t, msg, now))
    ensures |PushTo(t, msg, now).pipe.queue| == |t.pipe.queue| + if Notifies(t.pipe, msg) then 1 else 0
    ensures !t.pipe.open ==> PushTo(t, msg, now).pipe.queue == []
  {
    hide MessagesOf, InOrder, NothingLost;
    PushInSteps(t, msg, now);
    if DropsFirst(t.pipe) {
      DropKeepsOrder(t);
    }
    var kept := if DropsFirst(t.pipe) then DropFrom(t) else t;
    AcceptKeepsOrder(kept, msg, now);
  }

  lemma {:induction false} PopKeepsOrder(t: Tracked)
    requires InOrder(t) && NothingLost(t) && WithinSize(t)
    ensures InOrder(PopFrom(t)) && NothingLost(PopFrom(t)) && WithinSize(PopFrom(t))
  {
    hide MessagesOf, Messages;
    if t.pipe.queue != [] {
      FirstGoes(t.accepted, t.gone, t.pipe.queue, Taken);
      GoneKeeps(t, Gone(t.pipe.queue[0].msg, Taken), t.pipe.(queue := t.pipe.queue[1..]));
    }
  }

  lemma {:induction false} MessagesOfConcat(a: seq<Gone>, b: seq<Gone>)
    ensures MessagesOf(a + b) == MessagesOf(a) + MessagesOf(b)
    decreases |b|
  {
    if b == [] {
      assert a + b == a;
    } else {
      var rest := b[..|b| - 1];
      assert (a + b)[..|a + b| - 1] == a + rest;
      MessagesOfConcat(a, rest);
    }
  }

  lemma {:induction false} AllGoneMessages(queue: seq<Queued>)
    ensures MessagesOf(AllGone(queue, LeftOver)) == Messages(queue)
    ensures forall g :: g in AllGone(queue, LeftOver) ==> g.fate == LeftOver
    decreases |queue|
  {
    if queue != [] {
      var g := Gone(queue[0].msg, LeftOver);
      AllGoneMessages(queue[1..]);
      MessagesOfConcat([g], AllGone(queue[1..], LeftOver));
      GoneAppend([], g);
      assert [] + [g] == [g];
    }
  }

  lemma {:induction false} AllGoneInOrder(gone: seq<Gone>, queue: seq<Queued>)
    ensures MessagesOf(gone + AllGone(queue, LeftOver)) == MessagesOf(gone) + Messages(queue)
    ensures forall g :: g in AllGone(queue, LeftOver) ==> g.fate == LeftOver
  {
    MessagesOfConcat(gone, AllGone(queue, LeftOver));
    AllGoneMessages(queue);
  }

  lemma {:induction false} CloseKeepsOrder(t: Tracked)
    requires InOrder(t) && NothingLost(t)
    ensures InOrder(CloseOf(t)) && NothingLost(CloseOf(t)) && WithinSize(CloseOf(t))
  {
    AllGoneInOrder(t.gone, t.pipe.queue);
  }

  lemma {:induction false} PushKeeps(w: World, p: nat, msg: Message, now: int)
    requires Invariant(w) && p in w.pipes
    ensures Invariant(Next(w, Push(p, msg, now)))
  {
    hide Sorted, AddToken, Tokens, InOrder, NothingLost, WithinSize, PushTo, Notifies;
    var t, w' := w.pipes[p], Next(w, Push(p, msg, now));
    assert Fine(w.notify, w.held, p, t);
    PushKeepsOrder(t, msg, now);
    AddTokenAdds(w.notify, t.pipe.priority, p);
    AddTokenSorted(w.notify, t.pipe.priority, p);
    PushKeepsOpen(t, msg, now);
    forall k | k in w'.pipes
      ensures Fine(w'.notify, w'.held, k, w'.pipes[k])
    {
      if k != p {
        assert Fine(w.notify, w.held, k, w.pipes[k]);
      }
    }
  }

  lemma PushKeepsOpen(t: Tracked, msg: Message, now: int)
    ensures PushTo(t, msg, now).pipe.open == t.pipe.open
    ensures Notifies(t.pipe, msg) ==> t.pipe.open
  {
  }

  lemma {:induction false} PopNextKeeps(w: World)
    requires Invariant(w)
    ensures Invariant(Next(w, PopNext))
  {
    hide Tokens, InOrder, NothingLost, WithinSize, DropToken;
    if w.held.None? && w.notify != [] {
      var w' := Next(w, PopNext);
      DropTokenDrops(w.notify);
      var p := w.notify[0].1[0];
      assert multiset(Tokens(w.notify)) == multiset{p} + multiset(Tokens(w'.notify));
      forall k | k in w'.pipes
        ensures Fine(w'.notify, w'.held, k, w'.pipes[k])
      {
        assert Fine(w.notify, w.held, k, w.pipes[k]);
      }
    }
  }

  lemma {:induction false} ChangeKeeps(w: World, p: nat, t: Tracked)
    requires Invariant(w) && Fine(w.notify, w.held, p, t)
    ensures Invariant(Change(w, p, t))
  {
    hide Tokens, InOrder, NothingLost, WithinSize, Counted;
  }

  lemma {:induction false} PopMsgKeeps(w: World)
    requires Invariant(w)
    ensures Invariant(Next(w, PopMsg))
  {
    hide Tokens, InOrder, NothingLost, WithinSize, Count;
    if w.held.Some? {
      var p, w' := w.held.value, Next(w, PopMsg);
      assert Fine(w.notify, w.held, p, w.pipes[p]);
      PopKeepsOrder(w.pipes[p]);
      assert w'.pipes == w.pipes[p := PopFrom(w.pipes[p])] && w'.notify == w.notify && w'.held.None?;
      forall k | k in w'.pipes
        ensures Fine(w'.notify, w'.held, k, w'.pipes[k])
      {
        if k != p {
          assert Fine(w.notify, w.held, k, w.pipes[k]);
        }
      }
    }
  }

  lemma {:induction false} OpenKeeps(w: World, p: nat, mode: Mode, priority: int, maxTime: int, maxSize: int)
    requires Invariant(w) && p !in w.pipes
    ensures Invariant(Next(w, Open(p, mode, priority, maxTime, maxSize)))
  {
    if w.running {
      var t := Tracked(PipeState(true, false, false, mode, priority, maxTime, maxSize, []), [], []);
      assert p !in multiset(Tokens(w.notify));
      ChangeKeeps(w, p, t);
    }
  }

  /** Pausing, resuming and shutting down change no queue. */
  lemma {:induction false} FlagsKeep(w: World, p: nat, paused: bool, shut: bool)
    requires Invariant(w) && p in w.pipes
    ensures Invariant(Change(w, p, w.pipes[p].(pipe := w.pipes[p].pipe.(paused := paused, shut := shut))))
  {
    hide Tokens, Messages, MessagesOf;
    assert Fine(w.notify, w.held, p, w.pipes[p]);
    ChangeKeeps(w, p, w.pipes[p].(pipe := w.pipes[p].pipe.(paused := paused, shut := shut)));
  }

  lemma {:induction false} CloseKeeps(w: World, p: nat)
    requires Invariant(w) && p in w.pipes
    ensures Invariant(Change(w, p, CloseOf(w.pipes[p])))
  {
    hide InOrder, NothingLost, WithinSize, Tokens;
    assert Fine(w.notify, w.held, p, w.pipes[p]);
    CloseKeepsOrder(w.pipes[p]);
    ChangeKeeps(w, p, CloseOf(w.pipes[p]));
  }

  lemma {:induction false} StepKeeps(w: World, step: Step)
    requires Invariant(w)
    ensures Invariant(Next(w, step))
  {
    hide Invariant, PushTo, CloseOf, PopFrom;
    match step
    case Open(p, mode, priority, maxTime, maxSize) =>
      if p !in w.pipes {
        OpenKeeps(w, p, mode, priority, maxTime, maxSize);
      }
    case Push(p, msg, now) =>
      if p in w.pipes {
        PushKeeps(w, p, msg, now);
      }
    case Pause(p) =>
      if p in w.pipes {
        FlagsKeep(w, p, true, w.pipes[p].pipe.shut);
      }
    case Resume(p) =>
      if p in w.pipes {
        FlagsKeep(w, p, false, w.pipes[p].pipe.shut);
      }
    case ShutPipe(p) =>
      if p in w.pipes {
        FlagsKeep(w, p, w.pipes[p].pipe.paused, true);
      }
    case ClosePipe(p) =>
      if p in w.pipes {
        CloseKeeps(w, p);
      }
    case PopNext => PopNextKeeps(w);
    case PopMsg => PopMsgKeeps(w);
    case Exit => ExitKeeps(w);
  }

  lemma ExitKeeps(w: World)
    requires Invariant(w)
    ensures Invariant(w.(running := false))
  {
    hide Fine;
  }

  /** In every run: order, sizes and token counts are kept, and no accepted BLOCKING message is dropped. */
  lemma {:induction false} RunKeeps(steps: seq<Step>)
    ensures Invariant(Run(START, steps))
  {
    hide Invariant;
    if steps == [] {
      StartIsFine();
    } else {
      RunKeeps(steps[..|steps| - 1]);
      StepKeeps(Run(START, steps[..|steps| - 1]), steps[|steps| - 1]);
    }
  }

  lemma StartIsFine()
    ensures Invariant(START)
  {
  }

  /** No wake-up is lost: a reader that finds no token has nothing left to read in any open pipe. */
  lemma {:induction false} NoLostWakeUp(steps: seq<Step>, p: nat)
    ensures var w := Run(START, steps);
            w.held.None? && w.notify == [] && p in w.pipes && w.pipes[p].pipe.open ==> w.pipes[p].pipe.queue == []
  {
    RunKeeps(steps);
    var w := Run(START, steps);
    if w.held.None? && w.notify == [] && p in w.pipes {
      assert Fine(w.notify, w.held, p, w.pipes[p]);
    }
  }

  // ---------------------------------------------------------------------------------------------
  // Modes

  /** The pipe keeps its oldest messages, and none of what left it was dropped. */
  predicate KeptAll(w: World, p: nat) {
    && p in w.pipes && w.pipes[p].pipe.mode == KeepOldest
    && forall g :: g in w.pipes[p].gone ==> g.fate != Dropped
  }

  lemma {:induction false} StepKeepsAll(w: World, p: nat, step: Step)
    requires KeptAll(w, p)
    ensures KeptAll(Next(w, step), p)
  {
    hide AddToken, DropToken, Notifies;
    var t := w.pipes[p];
    assert !DropsFirst(t.pipe);
    AllGoneMessages(t.pipe.queue);
    match step
    case ClosePipe(q) =>
    case _ =>
  }

  lemma {:induction false} RunKeepsAll(steps: seq<Step>, i: nat, p: nat)
    requires i <= |steps| && KeptAll(Run(START, steps[..i]), p)
    ensures KeptAll(Run(START, steps), p)
    decreases |steps|
  {
    hide Next, KeptAll;
    if i == |steps| {
      assert steps[..i] == steps;
    } else {
      var before := steps[..|steps| - 1];
      assert before[..i] == steps[..i];
      RunKeepsAll(before, i, p);
      StepKeepsAll(Run(START, before), p, steps[|steps| - 1]);
    }
  }

  /** A pipe that was opened to keep the oldest messages drops nothing, whatever happens to it later. */
  lemma {:induction false} KeepOldestDropsNothing(
      steps: seq<Step>, i: nat, p: nat, priority: int, maxTime: int, maxSize: int)
    requires i < |steps| && steps[i] == Open(p, KeepOldest, priority, maxTime, maxSize)
    requires Run(START, steps[..i]).running && p !in Run(START, steps[..i]).pipes
    ensures var w := Run(START, steps);
            p in w.pipes && forall g :: g in w.pipes[p].gone ==> g.fate != Dropped
  {
    var opening := steps[..i + 1];
    assert opening[..|opening| - 1] == steps[..i] && opening[|opening| - 1] == steps[i];
    assert KeptAll(Run(START, opening), p);
    RunKeepsAll(steps, i + 1, p);
  }

  /**
   A push to an open pipe at its size limit: one that keeps the oldest messages is left as it is, one that
   keeps the latest drops its first message, if that may be lost, and takes the new one in without a token.
   */
  lemma {:induction false} PushAtLimit(w: World, p: nat, msg: Message, now: int)
    requires p in w.pipes
    requires var pipe := w.pipes[p].pipe;
             pipe.open && !pipe.shut && !pipe.paused && 0 < pipe.maxSize <= |pipe.queue|
    ensures var t, t', first := w.pipes[p], Next(w, Push(p, msg, now)).pipes[p], w.pipes[p].pipe.queue[0];
            if t.pipe.mode == KeepLatest && !first.msg.blocking then
              t' == Tracked(t.pipe.(queue := t.pipe.queue[1..] + [Queued(msg, now)]), t.accepted + [msg],
                            t.gone + [Gone(first.msg, Dropped)])
            else t' == t
    ensures Next(w, Push(p, msg, now)).notify == w.notify
    ensures forall q :: q in w.pipes && q != p ==> Next(w, Push(p, msg, now)).pipes[q] == w.pipes[q]
  {
    FullIsAtLimit(w.pipes[p].pipe);
  }

  // ---------------------------------------------------------------------------------------------
  // Reading until nothing is left

  /** The reader alone: token, message, token, message. */
  function Drain(w: World): World
    requires Invariant(w)
    decreases |Tokens(w.notify)|
  {
    if !w.running || w.held.Some? || w.notify == [] then w
    else
      OneRead(w);
      Drain(Next(Next(w, PopNext), PopMsg))
  }

  lemma {:induction false} OneRead(w: World)
    requires Invariant(w) && w.running && w.held.None? && w.notify != []
    ensures var w' := Next(Next(w, PopNext), PopMsg);
            Invariant(w') && w'.held.None? && |Tokens(w'.notify)| < |Tokens(w.notify)|
  {
    PopNextKeeps(w);
    PopMsgKeeps(Next(w, PopNext));
    DropTokenDrops(w.notify);
    TokenTaken(w);
    MessageTaken(Next(w, PopNext));
    hide Tokens, Fine, DropToken, Next, Invariant;
  }

  lemma TokenTaken(w: World)
    requires Invariant(w) && w.running && w.held.None? && w.notify != []
    ensures Next(w, PopNext).notify == DropToken(w.notify) && Next(w, PopNext).held == Some(w.notify[0].1[0])
    ensures Invariant(Next(w, PopNext)) ==> w.notify[0].1[0] in Next(w, PopNext).pipes
  {
    hide Tokens, Fine, DropToken;
  }

  lemma MessageTaken(w: World)
    requires w.held.Some? && w.held.value in w.pipes
    ensures Next(w, PopMsg).notify == w.notify && Next(w, PopMsg).held.None?
  {
    hide PopFrom;
  }

  /** It ends with every open pipe empty, unless a message told the node to stop. */
  lemma {:induction false} DrainReadsAll(w: World)
    requires Invariant(w) && w.held.None?
    ensures var w' := Drain(w);
            && Invariant(w')
            && (w'.running ==> forall p :: p in w'.pipes && w'.pipes[p].pipe.open ==> w'.pipes[p].pipe.queue == [])
    decreases |Tokens(w.notify)|
  {
    if w.running && w.notify != [] {
      OneRead(w);
      hide Invariant, Next, Tokens;
      DrainReadsAll(Next(Next(w, PopNext), PopMsg));
    } else if w.running {
      forall p | p in w.pipes && w.pipes[p].pipe.open
        ensures w.pipes[p].pipe.queue == []
      {
        assert Fine(w.notify, w.held, p, w.pipes[p]);
      }
    }
  }
}

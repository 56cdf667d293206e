/**
 The re-send protocol between two proxies: a sample that repeats the last sequence number of its
 channel is sent without its value, and the other side puts the value back from the last sample it
 got on that channel.
 */
module Resend {
  import opened Bytes

  /** A sample on a topic; its value may be missing from the start. */
  datatype Sample = Sample(source: nat, topic: nat, seqNum: nat, value: Option<int>)

  /** What goes over the link: the topic may have been mapped to another one. */
  datatype Packet = Packet(source: nat, topic: nat, seqNum: nat, resend: bool, value: Option<int>)

  type Key = (nat, nat)

  function ChannelOf(s: Sample): Key {
    (s.source, s.topic)
  }

  function KeyOf(p: Packet): Key {
    (p.source, p.topic)
  }

  /** How topics are mapped: one by one or, with all topics below them, whole domains. */
  type Remapping = nat -> nat

  function LastSent(channels: map<Key, nat>, c: Key): nat {
    if c in channels then channels[c] else 0
  }

  // ---------------------------------------------------------------------------------------------
  // The two ends

  /** What the sender makes of a sample. */
  function MakePacket(channels: map<Key, nat>, table: Remapping, s: Sample): Packet {
    var repeated := s.seqNum == LastSent(channels, ChannelOf(s));
    Packet(s.source, table(s.topic), s.seqNum, repeated, if repeated then None else s.value)
  }

  /** What the receiver passes on for a packet. */
  function Restore(buffer: map<Key, Packet>, p: Packet): Packet {
    if p.resend && KeyOf(p) in buffer then p.(value := buffer[KeyOf(p)].value) else p
  }

  function Remember(buffer: map<Key, Packet>, p: Packet): map<Key, Packet> {
    if p.resend && KeyOf(p) in buffer then buffer else buffer[KeyOf(p) := p]
  }

  class Sender {
    var channelMap: map<Key, nat>
    var isConnected: bool
    const exportMap: Remapping

    constructor (exportMap: Remapping)
      ensures channelMap == map[] && !isConnected && this.exportMap == exportMap
    {
      channelMap, isConnected := map[], false;
      this.exportMap := exportMap;
    }

    /**
     `handle` of a sample: `isPass` says whether the other side may see it, `sendFails` whether
     writing to the socket throws. The number is remembered only if the packet went out.
     */
    method Handle(sample: Sample, isPass: bool, sendFails: bool) returns (sent: Option<Packet>)
      modifies this`channelMap
      ensures sent == if isConnected && isPass && !sendFails then Some(MakePacket(old(channelMap), exportMap, sample))
                      else None
      ensures forall c :: LastSent(channelMap, c) ==
                if sent.Some? && c == ChannelOf(sample) then sample.seqNum else LastSent(old(channelMap), c)
    {
      var c := ChannelOf(sample);
      if c !in channelMap {
        channelMap := channelMap[c := 0];
      }
      var value, resend := sample.value, false;
      if sample.seqNum == channelMap[c] {
        value, resend := None, true;
      }
      var copy := Packet(sample.source, exportMap(sample.topic), sample.seqNum, resend, value);
      sent := None;
      if isConnected && isPass {
        if !sendFails {
          sent := Some(copy);
          channelMap := channelMap[c := sample.seqNum];
        }
      }
    }

    method OnConnect()
      modifies this`isConnected
      ensures isConnected
    {
      isConnected := true;
    }

    method OnDisconnect()
      modifies this
      ensures channelMap == map[] && !isConnected
    {
      channelMap, isConnected := map[], false;
    }
  }

  class Receiver {
    var recvBuffer: map<Key, Packet>

    constructor ()
      ensures recvBuffer == map[]
    {
      recvBuffer := map[];
    }

    /** `process` of a sample; a publish that is denied leaves no trace. */
    method Process(packet: Packet, denied: bool) returns (published: Option<Packet>)
      modifies this
      ensures published == if denied then None else Some(Restore(old(recvBuffer), packet))
      ensures recvBuffer == if denied then old(recvBuffer) else Remember(old(recvBuffer), packet)
    {
      if denied {
        return None;
      }
      var sample := packet;
      if packet.resend && KeyOf(packet) in recvBuffer {
        sample := sample.(value := recvBuffer[KeyOf(packet)].value);
      } else {
        recvBuffer := recvBuffer[KeyOf(packet) := sample];
      }
      published := Some(sample);
    }

    method OnDisconnect()
      modifies this
      ensures recvBuffer == map[]
    {
      recvBuffer := map[];
    }
  }

  // ---------------------------------------------------------------------------------------------
  // Runs

  /** A packet on its way, with the sample it was made from. */
  datatype InFlight = InFlight(packet: Packet, origin: Sample)

  /** What came out on the other side for a sample. */
  datatype Delivery = Delivery(origin: Sample, value: Option<int>)

  /** Both ends, the link between them, and what has happened: denied channels and delivered samples. */
  datatype State = State(
    channels: map<Key, nat>, senderUp: bool,
    link: seq<InFlight>,
    buffer: map<Key, Packet>, receiverUp: bool, denied: set<Key>,
    delivered: seq<Delivery>)

  /** Either end can lose the connection first; a new one starts once both have cleaned up. */
  datatype Step =
    | Send(sample: Sample, isPass: bool, sendFails: bool)
    | Receive(denied: bool)
    | SenderDown
    | ReceiverDown
    | Connect

  const START := State(map[], false, [], map[], false, {}, [])

  function Next(table: Remapping, s: State, step: Step): State {
    match step
    case Send(sample, isPass, sendFails) =>
      if !s.senderUp || !isPass || sendFails then s
      else
        var packet := InFlight(MakePacket(s.channels, table, sample), sample);
        // without a receiver the packet is lost although it was sent
        s.(channels := s.channels[ChannelOf(sample) := sample.seqNum],
           link := if s.receiverUp then s.link + [packet] else s.link)
    case Receive(denied) =>
      if !s.receiverUp || s.link == [] then s
      else if denied then s.(link := s.link[1..], denied := s.denied + {KeyOf(s.link[0].packet)})
      else
        var first := s.link[0];
        s.(link := s.link[1..], buffer := Remember(s.buffer, first.packet),
           delivered := s.delivered + [Delivery(first.origin, Restore(s.buffer, first.packet).value)])
    case SenderDown => s.(channels := map[], senderUp := false)
    case ReceiverDown => s.(buffer := map[], link := [], receiverUp := false, denied := {})
    case Connect => if s.senderUp || s.receiverUp then s else s.(senderUp := true, receiverUp := true)
  }

  function Run(table: Remapping, s: State, steps: seq<Step>): State {
    if steps == [] then s else Next(table, Run(table, s, steps[..|steps| - 1]), steps[|steps| - 1])
  }

  // ---------------------------------------------------------------------------------------------
  // What is assumed of publishers and of the topic maps

  /** Sequence numbers start at 1, and equal numbers on a channel mean equal values. */
  predicate Proper(samples: seq<Sample>) {
    && (forall s :: s in samples ==> s.seqNum > 0)
    && forall s, t :: s in samples && t in samples && ChannelOf(s) == ChannelOf(t) && s.seqNum == t.seqNum ==>
         s.value == t.value
  }

  /** No two topics are mapped to the same one. */
  ghost predicate Injective(table: Remapping) {
    forall a, b :: table(a) == table(b) ==> a == b
  }

  function SamplesOf(steps: seq<Step>): seq<Sample> {
    if steps == [] then []
    else SamplesOf(steps[..|steps| - 1]) + if steps[|steps| - 1].Send? then [steps[|steps| - 1].sample] else []
  }

  predicate NoneDenied(steps: seq<Step>) {
    forall i: nat :: i < |steps| && steps[i].Receive? ==> !steps[i].denied
  }

  /** The next packet is not accepted on a channel that was denied since the connection was made. */
  predicate StaysDenied(s: State, step: Step) {
    step == Receive(false) && s.receiverUp && s.link != [] ==> KeyOf(s.link[0].packet) !in s.denied
  }

  /** Denials last: what has been denied on a connection stays denied until it is lost. */
  predicate DenialsLast(table: Remapping, steps: seq<Step>) {
    forall i: nat :: i < |steps| ==> StaysDenied(Run(table, START, steps[..i]), steps[i])
  }

  // ---------------------------------------------------------------------------------------------
  // Every delivered sample carries its original value

  /** The last packet with data for a key: on the link, or the one the receiver remembers. */
  function Last(buffer: map<Key, Packet>, link: seq<InFlight>, k: Key): Option<Packet> {
    if link == [] then if k in buffer then Some(buffer[k]) else None
    else
      var p := link[|link| - 1].packet;
      if !p.resend && KeyOf(p) == k then Some(p) else Last(buffer, link[..|link| - 1], k)
  }

  /** A packet carries its value, or the receiver will find it when it gets there. */
  predicate Recoverable(buffer: map<Key, Packet>, link: seq<InFlight>, i: nat)
    requires i < |link|
  {
    var p := link[i].packet;
    if p.resend then
      var last := Last(buffer, link[..i], KeyOf(p));
      last.Some? && last.value.value == link[i].origin.value
    else p.value == link[i].origin.value
  }

  /** What the sender believes to be the last sample of a channel is what the receiver will remember. */
  predicate Agreed(table: Remapping, all: seq<Sample>, s: State, c: Key)
    requires c in s.channels
  {
    var last := Last(s.buffer, s.link, (c.0, table(c.1)));
    && last.Some?
    && exists t :: t in all && ChannelOf(t) == c && t.seqNum == s.channels[c] && t.value == last.value.value
  }

  predicate Invariant(table: Remapping, all: seq<Sample>, s: State) {
    && (forall i: nat :: i < |s.link| && KeyOf(s.link[i].packet) !in s.denied ==> Recoverable(s.buffer, s.link, i))
    && (s.senderUp && s.receiverUp ==>
          forall c :: c in s.channels && (c.0, table(c.1)) !in s.denied ==> Agreed(table, all, s, c))
    && (!s.senderUp ==> s.channels == map[])
    && (!s.receiverUp ==> s.link == [] && s.buffer == map[] && s.denied == {})
    && (forall d :: d in s.delivered ==> d.value == d.origin.value)
  }

  lemma {:induction false} LastAppend(buffer: map<Key, Packet>, link: seq<InFlight>, p: InFlight, k: Key)
    ensures Last(buffer, link + [p], k) ==
              if !p.packet.resend && KeyOf(p.packet) == k then Some(p.packet) else Last(buffer, link, k)
  {
    assert (link + [p])[..|link|] == link;
  }

  /** Receiving the first packet changes nothing about what will be remembered in the end. */
  lemma {:induction false} LastReceive(buffer: map<Key, Packet>, link: seq<InFlight>, n: nat, k: Key)
    requires 0 < n <= |link|
    requires link[0].packet.resend ==> KeyOf(link[0].packet) in buffer
    ensures Last(Remember(buffer, link[0].packet), link[1..n], k) == Last(buffer, link[..n], k)
    decreases n
  {
    if n > 1 {
      LastReceive(buffer, link, n - 1, k);
      assert link[1..n][..n - 2] == link[1..n - 1] && link[..n][..n - 1] == link[..n - 1];
      assert link[1..n][n - 2] == link[n - 1] == link[..n][n - 1];
    } else {
      assert link[1..1] == [] && link[..1] == [link[0]] && link[..1][..0] == [];
    }
  }

  /** Dropping the first packet changes nothing for the other channels. */
  lemma {:induction false} LastDrop(buffer: map<Key, Packet>, link: seq<InFlight>, n: nat, k: Key)
    requires 0 < n <= |link| && k != KeyOf(link[0].packet)
    ensures Last(buffer, link[1..n], k) == Last(buffer, link[..n], k)
    decreases n
  {
    if n > 1 {
      LastDrop(buffer, link, n - 1, k);
      assert link[1..n][..n - 2] == link[1..n - 1] && link[..n][..n - 1] == link[..n - 1];
      assert link[1..n][n - 2] == link[n - 1] == link[..n][n - 1];
    } else {
      assert link[1..1] == [] && link[..1] == [link[0]] && link[..1][..0] == [];
    }
  }

  lemma {:induction false} SendKeeps(table: Remapping, all: seq<Sample>, s: State, sample: Sample)
    requires Invariant(table, all, s) && Injective(table) && Proper(all) && sample in all
    requires s.senderUp && s.receiverUp
    ensures Invariant(table, all, Next(table, s, Send(sample, true, false)))
  {
    hide Last, Recoverable, Agreed, Injective, Proper;
    var s' := Next(table, s, Send(sample, true, false));
    SendRecoverable(table, all, s, sample);
    forall c | c in s'.channels && (c.0, table(c.1)) !in s'.denied
      ensures Agreed(table, all, s', c)
    {
      SendAgreed(table, all, s, sample, c);
    }
  }

  lemma {:induction false} SendRecoverable(table: Remapping, all: seq<Sample>, s: State, sample: Sample)
    requires Invariant(table, all, s) && Proper(all) && sample in all && s.senderUp && s.receiverUp
    ensures var s' := Next(table, s, Send(sample, true, false));
            forall i: nat :: i < |s'.link| && KeyOf(s'.link[i].packet) !in s'.denied ==>
              Recoverable(s'.buffer, s'.link, i)
  {
    hide Last;
    var packet := InFlight(MakePacket(s.channels, table, sample), sample);
    var s' := Next(table, s, Send(sample, true, false));
    if packet.packet.resend && KeyOf(packet.packet) !in s.denied {
      assert Agreed(table, all, s, ChannelOf(sample));
    }
    forall i: nat | i < |s'.link| && KeyOf(s'.link[i].packet) !in s'.denied
      ensures Recoverable(s'.buffer, s'.link, i)
    {
      assert s'.link[..i] == s.link[..i];
      if i < |s.link| {
        assert Recoverable(s.buffer, s.link, i);
      } else {
        assert s.link[..i] == s.link;
      }
    }
  }

  lemma {:induction false} SendAgreed(table: Remapping, all: seq<Sample>, s: State, sample: Sample, c: Key)
    requires Invariant(table, all, s) && Injective(table) && Proper(all) && sample in all
    requires s.senderUp && s.receiverUp
    requires c in Next(table, s, Send(sample, true, false)).channels && (c.0, table(c.1)) !in s.denied
    ensures Agreed(table, all, Next(table, s, Send(sample, true, false)), c)
  {
    hide Last, Recoverable;
    var packet := InFlight(MakePacket(s.channels, table, sample), sample);
    LastAppend(s.buffer, s.link, packet, (c.0, table(c.1)));
    if c in s.channels {
      assert Agreed(table, all, s, c);
    }
  }

  lemma {:induction false} ReceiveKeeps(table: Remapping, all: seq<Sample>, s: State)
    requires Invariant(table, all, s) && s.receiverUp && s.link != [] && KeyOf(s.link[0].packet) !in s.denied
    ensures Invariant(table, all, Next(table, s, Receive(false)))
  {
    hide Last;
    var s' := Next(table, s, Receive(false));
    assert Recoverable(s.buffer, s.link, 0);
    LastOfNothing(s.buffer, s.link, KeyOf(s.link[0].packet));
    forall i: nat | i < |s'.link| && KeyOf(s'.link[i].packet) !in s'.denied
      ensures Recoverable(s'.buffer, s'.link, i)
    {
      assert s'.link[i] == s.link[i + 1];
      assert Recoverable(s.buffer, s.link, i + 1);
      assert s'.link[..i] == s.link[1..i + 1];
      LastReceive(s.buffer, s.link, i + 1, KeyOf(s.link[i + 1].packet));
    }
    assert s.link[..|s.link|] == s.link && s.link[1..|s.link|] == s'.link;
    forall c | s.senderUp && c in s.channels && (c.0, table(c.1)) !in s.denied
      ensures Agreed(table, all, s', c)
    {
      assert Agreed(table, all, s, c);
      LastReceive(s.buffer, s.link, |s.link|, (c.0, table(c.1)));
    }
  }

  lemma {:induction false} DenyKeeps(table: Remapping, all: seq<Sample>, s: State)
    requires Invariant(table, all, s) && s.receiverUp && s.link != []
    ensures Invariant(table, all, Next(table, s, Receive(true)))
  {
    hide Last;
    var s' := Next(table, s, Receive(true));
    forall i: nat | i < |s'.link| && KeyOf(s'.link[i].packet) !in s'.denied
      ensures Recoverable(s'.buffer, s'.link, i)
    {
      assert s'.link[i] == s.link[i + 1];
      assert Recoverable(s.buffer, s.link, i + 1);
      assert s'.link[..i] == s.link[1..i + 1];
      LastDrop(s.buffer, s.link, i + 1, KeyOf(s.link[i + 1].packet));
    }
    assert s.link[..|s.link|] == s.link && s.link[1..|s.link|] == s'.link;
    forall c | s.senderUp && c in s.channels && (c.0, table(c.1)) !in s'.denied
      ensures Agreed(table, all, s', c)
    {
      assert Agreed(table, all, s, c);
      LastDrop(s.buffer, s.link, |s.link|, (c.0, table(c.1)));
    }
  }

  lemma LastOfNothing(buffer: map<Key, Packet>, link: seq<InFlight>, k: Key)
    ensures Last(buffer, link[..0], k) == if k in buffer then Some(buffer[k]) else None
  {
  }

  lemma {:induction false} StepKeeps(table: Remapping, all: seq<Sample>, s: State, step: Step)
    requires Invariant(table, all, s) && Injective(table) && Proper(all)
    requires (step.Send? ==> step.sample in all) && StaysDenied(s, step)
    ensures Invariant(table, all, Next(table, s, step))
  {
    match step
    case Send(sample, isPass, sendFails) =>
      if s.senderUp && s.receiverUp && isPass && !sendFails {
        SendKeeps(table, all, s, sample);
      }
    case Receive(denied) =>
      if s.receiverUp && s.link != [] {
        if denied {
          DenyKeeps(table, all, s);
        } else {
          ReceiveKeeps(table, all, s);
        }
      }
    case _ =>
  }

  lemma {:induction false} RunKeeps(table: Remapping, all: seq<Sample>, steps: seq<Step>)
    requires Injective(table) && Proper(all) && DenialsLast(table, steps)
    requires forall s :: s in SamplesOf(steps) ==> s in all
    ensures Invariant(table, all, Run(table, START, steps))
  {
    hide Invariant, Proper, Injective, StaysDenied;
    if steps == [] {
      StartIsFine(table, all);
    } else {
      var n := |steps| - 1;
      var before := steps[..n];
      assert forall i: nat :: i <= n ==> before[..i] == steps[..i];
      RunKeeps(table, all, before);
      StepKeeps(table, all, Run(table, START, before), steps[n]);
    }
  }

  lemma StartIsFine(table: Remapping, all: seq<Sample>)
    ensures Invariant(table, all, START)
  {
  }

  /**
   In every run, with failed sends, denials that last and reconnects at any time, every sample that
   comes out has the value it was published with, although repeats are sent empty.
   */
  lemma {:induction false} DeliversOriginals(table: Remapping, steps: seq<Step>)
    requires Injective(table) && Proper(SamplesOf(steps)) && DenialsLast(table, steps)
    ensures AllOriginal(table, steps)
  {
    RunKeeps(table, SamplesOf(steps), steps);
  }

  /** Everything that comes out of a run has its original value. */
  predicate AllOriginal(table: Remapping, steps: seq<Step>) {
    forall d :: d in Run(table, START, steps).delivered ==> d.value == d.origin.value
  }

  /** In particular nothing may be denied at all. */
  lemma {:induction false} NoneDeniedLasts(table: Remapping, steps: seq<Step>)
    requires NoneDenied(steps)
    ensures DenialsLast(table, steps) && Run(table, START, steps).denied == {}
  {
    hide Next;
    if steps != [] {
      var n := |steps| - 1;
      var before := steps[..n];
      assert forall i: nat :: i <= n ==> before[..i] == steps[..i];
      NoneDeniedLasts(table, before);
      NothingDenied(table, Run(table, START, before), steps[n]);
    }
  }

  lemma NothingDenied(table: Remapping, s: State, step: Step)
    requires s.denied == {} && (step.Receive? ==> !step.denied)
    ensures Next(table, s, step).denied == {}
  {
  }

  // ---------------------------------------------------------------------------------------------
  // What the assumptions are needed for

  /** A run, the samples in it and where it gets to. */
  predicate Reaches(table: Remapping, steps: seq<Step>, samples: seq<Sample>, s: State) {
    Run(table, START, steps) == s && SamplesOf(steps) == samples
  }

  lemma RunStep(table: Remapping, steps: seq<Step>, samples: seq<Sample>, s: State, step: Step)
    requires Reaches(table, steps, samples, s)
    ensures Reaches(table, steps + [step], samples + if step.Send? then [step.sample] else [], Next(table, s, step))
    ensures NoneDenied(steps) && (step.Receive? ==> !step.denied) ==> NoneDenied(steps + [step])
  {
    assert (steps + [step])[..|steps|] == steps;
  }

  const CONNECTED := State(map[], true, [], map[], true, {}, [])

  lemma Connected(table: Remapping)
    ensures Reaches(table, [Connect], [], CONNECTED) && NoneDenied([Connect])
  {
    assert Reaches(table, [], [], START);
    RunStep(table, [], [], START, Connect);
    assert [] + [Connect] == [Connect];
  }

  /** A connected sender sends a sample. */
  lemma SendOne(table: Remapping, steps: seq<Step>, samples: seq<Sample>, s: State, x: Sample) returns (s': State)
    requires Reaches(table, steps, samples, s) && s.senderUp && s.receiverUp
    ensures Reaches(table, steps + [Send(x, true, false)], samples + [x], s')
    ensures NoneDenied(steps) ==> NoneDenied(steps + [Send(x, true, false)])
    ensures s' == s.(channels := s.channels[ChannelOf(x) := x.seqNum],
                     link := s.link + [InFlight(MakePacket(s.channels, table, x), x)])
  {
    RunStep(table, steps, samples, s, Send(x, true, false));
    s' := Next(table, s, Send(x, true, false));
  }

  /** The receiver gets the first packet. */
  lemma ReceiveOne(table: Remapping, steps: seq<Step>, samples: seq<Sample>, s: State, denied: bool)
    returns (s': State)
    requires Reaches(table, steps, samples, s) && s.receiverUp && s.link != []
    ensures Reaches(table, steps + [Receive(denied)], samples, s')
    ensures NoneDenied(steps) && !denied ==> NoneDenied(steps + [Receive(denied)])
    ensures var first := s.link[0];
            s' == if denied then s.(link := s.link[1..], denied := s.denied + {KeyOf(first.packet)})
                  else
                    s.(link := s.link[1..], buffer := Remember(s.buffer, first.packet),
                       delivered := s.delivered + [Delivery(first.origin, Restore(s.buffer, first.packet).value)])
  {
    RunStep(table, steps, samples, s, Receive(denied));
    s' := Next(table, s, Receive(denied));
    assert samples + [] == samples;
  }

  /** A sample is sent and received right after that. */
  lemma PassOne(table: Remapping, steps: seq<Step>, samples: seq<Sample>, s: State, x: Sample, denied: bool)
    returns (s': State)
    requires Reaches(table, steps, samples, s) && s.senderUp && s.receiverUp && s.link == []
    ensures Reaches(table, steps + [Send(x, true, false)] + [Receive(denied)], samples + [x], s')
    ensures NoneDenied(steps) && !denied ==> NoneDenied(steps + [Send(x, true, false)] + [Receive(denied)])
    ensures s'.senderUp && s'.receiverUp && s'.link == [] && s'.channels == s.channels[ChannelOf(x) := x.seqNum]
    ensures var p := MakePacket(s.channels, table, x);
            if denied then s'.buffer == s.buffer && s'.delivered == s.delivered
            else
              && s'.buffer == Remember(s.buffer, p)
              && s'.delivered == s.delivered + [Delivery(x, Restore(s.buffer, p).value)]
  {
    hide Reaches, NoneDenied, MakePacket, Remember, Restore;
    var sent := SendOne(table, steps, samples, s, x);
    s' := ReceiveOne(table, steps + [Send(x, true, false)], samples + [x], sent, denied);
  }

  /** Two topics that are mapped to the same one mix up their values. */
  lemma {:induction false} MixedUp(table: Remapping, a: nat, b: nat) returns (steps: seq<Step>)
    requires a != b && table(a) == table(b)
    ensures Proper(SamplesOf(steps)) && NoneDenied(steps) && !AllOriginal(table, steps)
  {
    hide Reaches, NoneDenied, AllOriginal;
    var x, y := Sample(0, a, 1, Some(0)), Sample(0, b, 1, Some(1));
    Connected(table);
    var passed := [Connect] + [Send(x, true, false)] + [Receive(false)];
    var s := PassOne(table, [Connect], [], CONNECTED, x, false);
    var s' := PassOne(table, passed, [] + [x], s, y, false);
    passed := passed + [Send(y, true, false)] + [Receive(false)];
    var end := PassOne(table, passed, [] + [x] + [y], s', x, false);
    steps := passed + [Send(x, true, false)] + [Receive(false)];
    assert end.delivered[|end.delivered| - 1] == Delivery(x, Some(1));
    WrongEnd(table, steps, [] + [x] + [y] + [x], end, Delivery(x, Some(1)));
  }

  lemma WrongEnd(table: Remapping, steps: seq<Step>, samples: seq<Sample>, s: State, d: Delivery)
    requires Reaches(table, steps, samples, s) && d in s.delivered && d.value != d.origin.value
    ensures SamplesOf(steps) == samples && !AllOriginal(table, steps) && d in Run(table, START, steps).delivered
  {
  }

  /** Topic maps are safe exactly if they map no two topics to the same one. */
  lemma {:induction false} SafeExactlyIfInjective(table: Remapping)
    ensures Injective(table)
            <==> forall steps :: Proper(SamplesOf(steps)) && DenialsLast(table, steps) ==> AllOriginal(table, steps)
  {
    if Injective(table) {
      forall steps | Proper(SamplesOf(steps)) && DenialsLast(table, steps)
        ensures AllOriginal(table, steps)
      {
        DeliversOriginals(table, steps);
      }
    } else {
      var a, b :| table(a) == table(b) && a != b;
      var steps := MixedUp(table, a, b);
      NoneDeniedLasts(table, steps);
    }
  }

  function OlderSample(topic: nat): Sample {
    Sample(0, topic, 1, Some(0))
  }

  function NewerSample(topic: nat): Sample {
    Sample(0, topic, 2, Some(1))
  }

  /** A sample is accepted, the next one is denied, and when that is sent again it is accepted. */
  function LiftedRun(topic: nat): seq<Step> {
    var x, y := OlderSample(topic), NewerSample(topic);
    [Connect] + [Send(x, true, false)] + [Receive(false)]
    + [Send(y, true, false)] + [Receive(true)] + [Send(y, true, false)] + [Receive(false)]
  }

  /** One denial that does not last is enough: the repeat of what was denied brings back an older value. */
  lemma {:induction false} LiftedDenial(table: Remapping, topic: nat)
    ensures var steps := LiftedRun(topic);
            && Proper(SamplesOf(steps)) && !AllOriginal(table, steps)
            && Delivery(NewerSample(topic), OlderSample(topic).value) in Run(table, START, steps).delivered
            && (Injective(table) ==> !DenialsLast(table, steps))
  {
    var x, y := OlderSample(topic), NewerSample(topic);
    hide Reaches, NoneDenied, AllOriginal, DenialsLast, Injective;
    Connected(table);
    var passed := [Connect] + [Send(x, true, false)] + [Receive(false)];
    var s := PassOne(table, [Connect], [], CONNECTED, x, false);
    var s' := PassOne(table, passed, [] + [x], s, y, true);
    passed := passed + [Send(y, true, false)] + [Receive(true)];
    var end := PassOne(table, passed, [] + [x] + [y], s', y, false);
    var steps := passed + [Send(y, true, false)] + [Receive(false)];
    assert end.delivered[|end.delivered| - 1] == Delivery(y, x.value);
    WrongEnd(table, steps, [] + [x] + [y] + [y], end, Delivery(y, x.value));
    assert steps == LiftedRun(topic);
    if Injective(table) && DenialsLast(table, steps) {
      DeliversOriginals(table, steps);
    }
  }

  /**
   Sequence numbers must start at 1, and equal numbers on a channel must mean equal values: samples
   that have values are safe in all runs exactly if they are proper.
   */
  lemma {:induction false} SafeExactlyIfProper(table: Remapping, all: seq<Sample>)
    requires Injective(table) && forall s :: s in all ==> s.value.Some?
    ensures Proper(all)
            <==> forall steps :: (forall s :: s in SamplesOf(steps) ==> s in all) && DenialsLast(table, steps) ==>
                   AllOriginal(table, steps)
  {
    if Proper(all) {
      forall steps | (forall s :: s in SamplesOf(steps) ==> s in all) && DenialsLast(table, steps)
        ensures AllOriginal(table, steps)
      {
        DeliversOriginals(table, steps);
      }
    } else if exists s :: s in all && s.seqNum == 0 {
      var s :| s in all && s.seqNum == 0;
      var steps := NumberZero(table, s);
      NoneDeniedLasts(table, steps);
    } else {
      var s, t :| s in all && t in all && ChannelOf(s) == ChannelOf(t) && s.seqNum == t.seqNum && s.value != t.value;
      var steps := SameNumber(table, s, t);
      NoneDeniedLasts(table, steps);
    }
  }

  /** The first sample of a channel is taken for a repeat if its number is 0. */
  lemma {:induction false} NumberZero(table: Remapping, x: Sample) returns (steps: seq<Step>)
    requires x.seqNum == 0 && x.value.Some?
    ensures SamplesOf(steps) == [x] && NoneDenied(steps) && !AllOriginal(table, steps)
  {
    hide Reaches, NoneDenied, AllOriginal;
    Connected(table);
    var end := PassOne(table, [Connect], [], CONNECTED, x, false);
    steps := [Connect] + [Send(x, true, false)] + [Receive(false)];
    assert end.delivered[0] == Delivery(x, None);
    WrongEnd(table, steps, [] + [x], end, Delivery(x, None));
  }

  /** Another value under the same number arrives as the first one. */
  lemma {:induction false} SameNumber(table: Remapping, x: Sample, y: Sample) returns (steps: seq<Step>)
    requires ChannelOf(x) == ChannelOf(y) && x.seqNum == y.seqNum > 0 && x.value != y.value
    ensures SamplesOf(steps) == [x, y] && NoneDenied(steps) && !AllOriginal(table, steps)
  {
    hide Reaches, NoneDenied, AllOriginal;
    Connected(table);
    var s := PassOne(table, [Connect], [], CONNECTED, x, false);
    var passed := [Connect] + [Send(x, true, false)] + [Receive(false)];
    var end := PassOne(table, passed, [] + [x], s, y, false);
    steps := passed + [Send(y, true, false)] + [Receive(false)];
    assert end.delivered[1] == Delivery(y, x.value);
    WrongEnd(table, steps, [] + [x] + [y], end, Delivery(y, x.value));
    assert [] + [x] + [y] == [x, y];
  }

  // ---------------------------------------------------------------------------------------------
  // The objects take these steps

  /** What both ends know is what the state says; no entry is the same as number 0. */
  ghost predicate Matches(sender: Sender, receiver: Receiver, table: Remapping, s: State)
    reads sender, receiver
  {
    && sender.exportMap == table && sender.isConnected == s.senderUp
    && (forall c :: LastSent(sender.channelMap, c) == LastSent(s.channels, c))
    && receiver.recvBuffer == s.buffer
  }

  /** Any step of a run, taken by the objects: the link and the deliveries are those of the step. */
  method Play(sender: Sender, receiver: Receiver, table: Remapping, s: State, step: Step)
    returns (link: seq<InFlight>, delivered: seq<Delivery>)
    requires Matches(sender, receiver, table, s) && (!s.receiverUp ==> s.buffer == map[])
    modifies sender, receiver
    ensures var s' := Next(table, s, step);
            Matches(sender, receiver, table, s') && link == s'.link && delivered == s'.delivered
  {
    link, delivered := s.link, s.delivered;
    match step
    case Send(sample, isPass, sendFails) =>
      var sent := sender.Handle(sample, isPass, sendFails);
      if sent.Some? && s.receiverUp {
        link := link + [InFlight(sent.value, sample)];
      }
    case Receive(denied) =>
      if s.receiverUp && link != [] {
        var published := receiver.Process(link[0].packet, denied);
        if published.Some? {
          delivered := delivered + [Delivery(link[0].origin, published.value.value)];
        }
        link := link[1..];
      }
    case SenderDown =>
      sender.OnDisconnect();
    case ReceiverDown =>
      receiver.OnDisconnect();
      link := [];
    case Connect =>
      if !s.senderUp && !s.receiverUp {
        sender.OnConnect();
      }
  }
}

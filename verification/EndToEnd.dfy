/** From the sender's API calls through queue, mailboxes and bus to the receiver's application. */
module EndToEnd {
  import opened CanFrames
  import opened Reception
  import opened Transmission
  import opened Delivery
  import opened Upkeep
  import opened Isolation
  import opened Bus
  import opened Sending

  function FramesIn(run: seq<Arrival>): seq<Frame> {
    seq(|run|, i requires 0 <= i < |run| => run[i].frame)
  }

  function TimesIn(run: seq<Arrival>): seq<nat> {
    seq(|run|, i requires 0 <= i < |run| => run[i].ts)
  }

  lemma SameRun(a: seq<Arrival>, b: seq<Arrival>)
    requires FramesIn(a) == FramesIn(b) && TimesIn(a) == TimesIn(b)
    ensures a == b
  {
    assert |a| == |FramesIn(a)| == |b|;
    forall i | 0 <= i < |a| ensures a[i] == b[i] {
      assert FramesIn(a)[i] == FramesIn(b)[i] && TimesIn(a)[i] == TimesIn(b)[i];
    }
  }

  /** All frames a sender queues for a stream, and when they arrive. */
  function StreamFrames(accept: Accept, desc: nat, s: Stream): seq<Frame>
    requires ConformingTo(accept, desc, s)
  {
    FramesIn(StreamArrivals(accept, desc, s.signature, s.firstId, s.transfers))
  }

  function StreamTimes(accept: Accept, desc: nat, s: Stream): seq<nat>
    requires ConformingTo(accept, desc, s)
  {
    TimesIn(StreamArrivals(accept, desc, s.signature, s.firstId, s.transfers))
  }

  /** The frames of descriptor `desc` on the bus are those with identifier `id`. */
  predicate Dedicated(nodeId: nat, desc: nat, id: Word, h: seq<Incident>) {
    forall i | 0 <= i < |h| && h[i].Received? :: Belongs(nodeId, desc, h[i].arrival) <==> h[i].arrival.frame.id == id
  }

  lemma HeardOwn(nodeId: nat, desc: nat, h: seq<Incident>)
    requires h != []
    ensures Heard(h) == if h[0].Received? then [h[0].arrival] + Heard(h[1..]) else Heard(h[1..])
    ensures Heard(Own(nodeId, desc, h)) ==
            if h[0].Received? && Belongs(nodeId, desc, h[0].arrival)
            then [h[0].arrival] + Heard(Own(nodeId, desc, h[1..]))
            else Heard(Own(nodeId, desc, h[1..]))
  {
    hide Own, Heard, Belongs;
    assert h == [h[0]] + h[1..];
    OwnIs(nodeId, desc, h);
    HeardFirst(h[0], h[1..]);
    HeardFirst(h[0], Own(nodeId, desc, h[1..]));
  }

  lemma {:induction false} OwnIsOfId(nodeId: nat, desc: nat, id: Word, h: seq<Incident>)
    requires Dedicated(nodeId, desc, id, h)
    ensures FramesIn(Heard(Own(nodeId, desc, h))) == OfId(FramesIn(Heard(h)), id)
  {
    if h == [] {
      assert Heard(h) == [] && Own(nodeId, desc, h) == [];
    } else {
      hide Own, OfId, FramesIn, Heard, Belongs;
      OwnIsOfId(nodeId, desc, id, h[1..]);
      HeardOwn(nodeId, desc, h);
      if h[0].Received? {
        FirstOfId(h[0].arrival, Heard(h[1..]), id);
        FirstOfId(h[0].arrival, Heard(Own(nodeId, desc, h[1..])), id);
      }
    }
  }

  lemma FirstOfId(a: Arrival, rest: seq<Arrival>, id: Word)
    ensures FramesIn([a] + rest) == [a.frame] + FramesIn(rest)
    ensures OfId(FramesIn([a] + rest), id) == if a.frame.id ==
            id then [a.frame] + OfId(FramesIn(rest), id) else OfId(FramesIn(rest), id)
  {
    assert FramesIn([a] + rest) == [a.frame] + FramesIn(rest);
    assert ([a.frame] + FramesIn(rest))[1..] == FramesIn(rest);
  }

  /** One sender: what it did, and the identifier it uses for the stream. */
  datatype Sender = Sender(events: seq<Event>, id: Word)

  /** The sender queued exactly the frames of stream s with its identifier, lost none of them, and has sent them all;
      the bus carried what it sent in the order it was sent. */
  ghost predicate Carries(accept: Accept, nodeId: nat, desc: nat, s: Stream, sender: Sender, h: seq<Incident>) {
    && ConformingTo(accept, desc, s) && Dedicated(nodeId, desc, sender.id, h) && IsRun(IDLE, sender.events)
    && var end := Run(IDLE, sender.events);
       && OfId(end.pushed, sender.id) == StreamFrames(accept, desc, s)
       && !end.lost && end.queue == [] && Pending(end.mailboxes) == []
       && OfId(FramesIn(Heard(h)), sender.id) == OfId(end.sent, sender.id)
       && TimesIn(Heard(Own(nodeId, desc, h))) == StreamTimes(accept, desc, s)
  }

  /** Any number of senders, each with its own identifier and any choice its controller makes among pending mailboxes,
      and any interleaving on the bus: the receiver's application gets every transfer, unchanged, once, and in order. */
  lemma EndToEndDelivery(accept: Accept, n: Node, h: seq<Incident>, streams: map<nat, Stream>,
                         senders: map<nat, Sender>,
                         descs: set<nat>)
    requires Sound(n, descs) && streams.Keys <= descs && Covers(streams.Keys, n.nodeId, h) && Paced(h, 0)
    requires LeavesRoom(Capacity(n), descs, h)
    requires forall d | d in streams :: d in senders && Carries(accept, n.nodeId, d, streams[d], senders[d], h)
    requires forall d | d in streams :: ReadyForStream(SlotOf(n, d), d, streams[d].firstId, streams[d].transfers)
    ensures RunsSmoothly(accept, n, h)
    ensures forall d | d in streams ::
              && ConformingTo(accept, d, streams[d])
              && LogOf(RunNode(accept, n, h).log, d) == LogOf(n.log, d) + Expected(accept, d, streams[d])
  {
    hide Sound, SlotOf, LogOf, Own, RunNode, ConformingStream, ReadyForStream, StreamArrivals, RunsSmoothly, IsRun, Run,
         OfId, Dedicated, Pending, Covers, FramesIn, TimesIn, Heard, Paced, LeavesRoom, Capacity;
    forall d | d in streams
      ensures ConformingTo(accept, d, streams[d])
      ensures Heard(Own(n.nodeId, d, h)) ==
              StreamArrivals(accept, d, streams[d].signature, streams[d].firstId, streams[d].transfers)
    {
      BusOrder(senders[d].events, senders[d].id);
      OwnIsOfId(n.nodeId, d, senders[d].id, h);
      SameRun(Heard(Own(n.nodeId, d, h)),
              StreamArrivals(accept, d, streams[d].signature, streams[d].firstId, streams[d].transfers));
    }
    InterleavedStreams(accept, n, h, streams, descs);
  }

  // ---------------------------------------------------------------------------------------------
  // From the senders' API calls to the receiver

  /** The receiver takes transfers of this kind, with the signature the sender used. */
  predicate Takes(accept: Accept, h: Header, signature: bv64) {
    accept(h.dataTypeId, h.kind, h.source) == Some(signature)
  }

  /** An application that publishes: the transfer ID it starts with, everything that happens at its node, and when the
      frames of each of its transfers arrive. */
  datatype Application = Application(publisher: Publisher, firstId: bv8, acts: seq<Activity>, times: seq<seq<nat>>) {
    predicate Valid() {
      publisher.Valid() && firstId < 32 && |times| == |Published(acts)|
    }

    /** The stream its calls amount to. */
    function Sent(): Stream
      requires Valid()
    {
      Stream(publisher.signature, firstId, Transfers(publisher, Published(acts), times))
    }

    function Origin(): Sender
      requires Valid()
    {
      Sender(AllEvents(publisher, acts), publisher.Id() + FRAME_EFF)
    }
  }

  /** Each transfer can be received, and its frames arrive in time. */
  predicate Punctual(p: Publisher, transferId: bv8, payloads: seq<seq<bv8>>, times: seq<seq<nat>>)
    requires p.Valid()
    decreases |payloads|
  {
    && |times| == |payloads|
    && (payloads != [] ==>
          && |payloads[0]| <= PAYLOAD_LIMIT && Timely(times[0])
          && |times[0]| == |TxFrames(p.Id(), transferId, CrcFor(p.signature, payloads[0]), payloads[0])|
          && Punctual(p, NextId(transferId), payloads[1..], times[1..]))
  }

  function Transfers(p: Publisher, payloads: seq<seq<bv8>>, times: seq<seq<nat>>): seq<Sent>
    requires p.Valid() && |times| == |payloads|
  {
    if payloads == [] then [] else [Sent(p.Id(), payloads[0], times[0])] + Transfers(p, payloads[1..], times[1..])
  }

  function Concatenated(times: seq<seq<nat>>): seq<nat> {
    if times == [] then [] else times[0] + Concatenated(times[1..])
  }

  /** What calls with passed-on transfer IDs queue is a stream: all transfers whole, with consecutive IDs. */
  lemma {:induction false} TrainIsStream(accept: Accept, p: Publisher, transferId: bv8, payloads: seq<seq<bv8>>,
                                         times: seq<seq<nat>>)
    requires p.Valid() && transferId < 32 && Punctual(p, transferId, payloads, times)
    requires Takes(accept, p.HeaderSent(), p.signature)
    ensures var desc, transfers := MakeDescriptor(p.HeaderSent()), Transfers(p, payloads, times);
            && ConformingStream(accept, desc, p.signature, transferId, transfers)
            && FramesIn(StreamArrivals(accept, desc, p.signature, transferId, transfers)) ==
               Train(p, transferId, payloads)
            && TimesIn(StreamArrivals(accept, desc, p.signature, transferId, transfers)) == Concatenated(times)
    decreases |payloads|
  {
    hide TxFrames, CrcFor, Timely, HeaderOf, MakeDescriptor, NextId, Publisher.Id, Publisher.Valid,
         Publisher.HeaderSent, Arrivals, FramesIn, TimesIn;
    var desc, transfers := MakeDescriptor(p.HeaderSent()), Transfers(p, payloads, times);
    if payloads == [] {
      NoFrames();
    } else {
      PlansAgree(p, payloads[0]);
      NextIdFits(transferId);
      TrainIsStream(accept, p, NextId(transferId), payloads[1..], times[1..]);
      assert transfers[1..] == Transfers(p, payloads[1..], times[1..]);
      var frames := TxFrames(p.Id(), transferId, CrcFor(p.signature, payloads[0]), payloads[0]);
      ArrivalParts(frames, times[0]);
      PartsConcat(Arrivals(frames, times[0]),
                  StreamArrivals(accept, desc, p.signature, NextId(transferId), transfers[1..]));
    }
  }

  lemma NoFrames()
    ensures FramesIn([]) == [] && TimesIn([]) == []
  {
  }

  lemma ArrivalParts(frames: seq<Frame>, times: seq<nat>)
    requires |times| == |frames|
    ensures FramesIn(Arrivals(frames, times)) == frames && TimesIn(Arrivals(frames, times)) == times
  {
  }

  lemma PartsConcat(a: seq<Arrival>, b: seq<Arrival>)
    ensures FramesIn(a + b) == FramesIn(a) + FramesIn(b) && TimesIn(a + b) == TimesIn(a) + TimesIn(b)
  {
  }

  /** The application's calls succeed and pass the transfer ID on, the controller loses nothing and has sent everything,
      the bus carries that in order, and the receiver takes the transfers. */
  ghost predicate Reaches(accept: Accept, nodeId: nat, desc: nat, a: Application, h: seq<Incident>)
    requires a.Valid()
  {
    var p := a.publisher;
    && PassesOn(p, a.firstId, a.acts) && Punctual(p, a.firstId, Published(a.acts), a.times)
    && Takes(accept, p.HeaderSent(), p.signature) && desc == MakeDescriptor(p.HeaderSent())
    && var id := p.Id() + FRAME_EFF;
       && Dedicated(nodeId, desc, id, h) && IsRun(IDLE, AllEvents(p, a.acts))
       && var end := Run(IDLE, AllEvents(p, a.acts));
          && !end.lost && end.queue == [] && Pending(end.mailboxes) == []
          && OfId(FramesIn(Heard(h)), id) == OfId(end.sent, id)
          && TimesIn(Heard(Own(nodeId, desc, h))) == Concatenated(a.times)
  }

  lemma ReachesCarries(accept: Accept, nodeId: nat, desc: nat, a: Application, h: seq<Incident>)
    requires a.Valid() && Reaches(accept, nodeId, desc, a, h)
    ensures Carries(accept, nodeId, desc, a.Sent(), a.Origin(), h)
  {
    hide Publisher.Id, Publisher.Valid, Publisher.HeaderSent, MakeDescriptor, Dedicated, IsRun, Run, Pending, OfId,
         FramesIn, TimesIn, Own, ConformingStream, StreamArrivals, Heard, Train, Published, Transfers, AllEvents,
         PassesOn, Punctual, Takes;
    var p := a.publisher;
    TrainIsStream(accept, p, a.firstId, Published(a.acts), a.times);
    TrainPushed(p, a.firstId, a.acts);
    RunPushes(IDLE, AllEvents(p, a.acts));
    assert [] + AllPushed(AllEvents(p, a.acts)) == AllPushed(AllEvents(p, a.acts));
  }

  /** From call to callback: whatever each application passes to its calls, one after the other, the receiver's
      application gets in order, each payload unchanged and once. */
  lemma CallsToCallbacks(accept: Accept, n: Node, h: seq<Incident>, apps: map<nat, Application>, descs: set<nat>)
    requires Sound(n, descs) && apps.Keys <= descs && Covers(apps.Keys, n.nodeId, h) && Paced(h, 0)
    requires LeavesRoom(Capacity(n), descs, h)
    requires forall d | d in apps :: apps[d].Valid() && Reaches(accept, n.nodeId, d, apps[d], h)
    requires forall d | d in apps :: ReadyForStream(SlotOf(n, d), d, apps[d].firstId, apps[d].Sent().transfers)
    ensures RunsSmoothly(accept, n, h)
    ensures forall d | d in apps ::
              && ConformingTo(accept, d, apps[d].Sent())
              && LogOf(RunNode(accept, n, h).log, d) == LogOf(n.log, d) + Expected(accept, d, apps[d].Sent())
  {
    hide Sound, SlotOf, LogOf, RunNode, ReadyForStream, RunsSmoothly, Covers, Paced, LeavesRoom, Capacity, Carries,
         Reaches, ConformingTo, Expected, Application.Valid, Application.Origin;
    var streams := map d | d in apps :: apps[d].Sent();
    var senders := map d | d in apps :: apps[d].Origin();
    assert streams.Keys == apps.Keys;
    forall d | d in streams ensures Carries(accept, n.nodeId, d, streams[d], senders[d], h) {
      ReachesCarries(accept, n.nodeId, d, apps[d], h);
    }
    EndToEndDelivery(accept, n, h, streams, senders, descs);
  }

  // ---------------------------------------------------------------------------------------------
  // From one API call to the receiver

  /** What a caller broadcasts reaches any receiver ready for it with the priority, data type, source and payload
      given. */
  lemma BroadcastArrives(accept: Accept, slot: Slot, nodeId: nat, signature: bv64, dataTypeId: nat, transferId: bv8,
                         priority: nat, payload: seq<bv8>, times: seq<nat>)
    requires nodeId < 128 && dataTypeId < 0x1_0000 && transferId < 32 && |payload| <= PAYLOAD_LIMIT
    requires BroadcastPlan(nodeId, signature, dataTypeId, priority, payload).Planned?
    requires var h := Header(priority, dataTypeId, Broadcast, nodeId, 0);
             Takes(accept, h, signature) && (slot.Some? ==> slot.value.desc == MakeDescriptor(h))
    requires var p := BroadcastPlan(nodeId, signature, dataTypeId, priority, payload);
             |times| == |TxFrames(p.id, transferId, p.crc, payload)| && Timely(times) && times != []
                 && Ready(slot, transferId, times[0])
    ensures var p := BroadcastPlan(nodeId, signature, dataTypeId, priority, payload);
            DeliversOne(accept, slot, Arrivals(TxFrames(p.id, transferId, p.crc, payload), times),
                        Transfer(times[|times| - 1], payload, Header(priority, dataTypeId, Broadcast, nodeId, 0),
                                 transferId),
                        times[0])
  {
    hide DeliversOne, TxFrames, Timely, Ready, CrcFor, HeaderOf, MakeDescriptor, BroadcastPlan;
    var p := BroadcastPlan(nodeId, signature, dataTypeId, priority, payload);
    BroadcastIdentifies(nodeId, signature, dataTypeId, priority, payload);
    RoundTrip(accept, slot, p.id, transferId, signature, payload, times);
  }

  /** What a receiver reads off the identifier of a service transfer. */
  function ServiceSent(priority: nat, dataTypeId: nat, request: bool, nodeId: nat, dest: nat): Header {
    Header(priority, dataTypeId, if MarkedRequest(request, dest) then Request else Response, nodeId, dest % 0x80)
  }

  /** The same for service requests and responses. */
  lemma ServiceArrives(accept: Accept, slot: Slot, nodeId: nat, dest: nat, signature: bv64, dataTypeId: nat,
                       transferId: bv8, priority: nat, request: bool, payload: seq<bv8>, times: seq<nat>)
    requires nodeId < 128 && dest < 0x100 && dataTypeId < 0x100 && transferId < 32 && |payload| <= PAYLOAD_LIMIT
    requires ServicePlan(nodeId, dest, signature, dataTypeId, priority, request, payload).Planned?
    requires var h := ServiceSent(priority, dataTypeId, request, nodeId, dest);
             Takes(accept, h, signature) && (slot.Some? ==> slot.value.desc == MakeDescriptor(h))
    requires var p := ServicePlan(nodeId, dest, signature, dataTypeId, priority, request, payload);
             |times| == |TxFrames(p.id, transferId, p.crc, payload)| && Timely(times) && times != []
                 && Ready(slot, transferId, times[0])
    ensures var p := ServicePlan(nodeId, dest, signature, dataTypeId, priority, request, payload);
            var h := ServiceSent(priority, dataTypeId, request, nodeId, dest);
            DeliversOne(accept, slot, Arrivals(TxFrames(p.id, transferId, p.crc, payload), times),
                        Transfer(times[|times| - 1], payload, h, transferId), times[0])
  {
    hide DeliversOne, TxFrames, Timely, Ready, CrcFor, HeaderOf, MakeDescriptor, ServicePlan;
    var p := ServicePlan(nodeId, dest, signature, dataTypeId, priority, request, payload);
    ServiceIdentifies(nodeId, dest, signature, dataTypeId, priority, request, payload);
    RoundTrip(accept, slot, p.id, transferId, signature, payload, times);
  }
}

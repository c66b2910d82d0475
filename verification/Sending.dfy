/** What an application's calls put into the TX queue over time. */
module Sending {
  import opened CanFrames
  import opened Reception
  import opened Transmission
  import opened Bus

  /** One call of the API: what it plans to send, and how many blocks are free for it. */
  datatype Call = Call(plan: Plan, transferId: bv8, payload: seq<bv8>, free: nat)

  predicate Accepts(c: Call) {
    c.plan.Planned? && c.plan.id < EXT_ID_LIMIT
  }

  function FramesOf(c: Call): seq<Frame>
    requires Accepts(c)
  {
    TxFrames(c.plan.id, c.transferId, c.plan.crc, c.payload)
  }

  /** The frames that find a block. */
  function Queued(c: Call): seq<Frame>
    requires Accepts(c)
  {
    var frames := FramesOf(c);
    frames[..if |frames| <= c.free then |frames| else c.free]
  }

  /** The call returns the number of frames, not an error. */
  predicate Succeeds(c: Call) {
    Accepts(c) && |FramesOf(c)| <= c.free
  }

  /** A call on a node whose queue is the system's does to that queue what its pushes do. */
  lemma CallIsRun(s: System, n: Node, c: Call)
    requires Accepts(c) && s.queue == n.tx && c.free == n.free
    ensures IsRun(s, Pushes(Queued(c))) && Run(s, Pushes(Queued(c))).queue == Transmitted(n, FramesOf(c)).tx
    ensures Succeeds(c) <==> SendResult(n, FramesOf(c)) >= 0
  {
    hide TxFrames, WellFormedId, Insert, IsRun, Run;
    TransferWellFormed(c.plan.id, c.transferId, c.plan.crc, c.payload);
    InsertAllIsRun(s, Queued(c));
  }

  // ---------------------------------------------------------------------------------------------
  // Publishers

  /** Who sends a stream of transfers: a node's broadcasts of one data type and priority, or its requests to one
      server. */
  datatype Publisher =
    | Broadcaster(nodeId: nat, signature: bv64, dataTypeId: nat, priority: nat)
    | Requester(nodeId: nat, dest: nat, signature: bv64, dataTypeId: nat, priority: nat)
  {
    /** A node with a node ID, and arguments the API takes. */
    predicate Valid() {
      && 0 < nodeId < 128 && priority < 32
      && match this
         case Broadcaster(_, _, _, _) => dataTypeId < 0x1_0000
         case Requester(_, _, _, _, _) => dest < 0x100 && dataTypeId < 0x100
    }

    function PlanOf(payload: seq<bv8>): Plan
      requires Valid()
    {
      match this
      case Broadcaster(_, _, _, _) => BroadcastPlan(nodeId, signature, dataTypeId, priority, payload)
      case Requester(_, _, _, _, _) => ServicePlan(nodeId, dest, signature, dataTypeId, priority, true, payload)
    }

    function Id(): (id: nat)
      requires Valid()
      ensures id < EXT_ID_LIMIT
    {
      match this
      case Broadcaster(_, _, _, _) => BroadcastId(priority, dataTypeId, nodeId)
      case Requester(_, _, _, _, _) => ServiceId(priority, dataTypeId, true, dest, nodeId)
    }

    /** What a receiver reads off the identifier. */
    function HeaderSent(): Header {
      match this
      case Broadcaster(_, _, _, _) => Header(priority, dataTypeId, Broadcast, nodeId, 0)
      case Requester(_, _, _, _, _) => Header(priority, dataTypeId, Request, nodeId, dest % 0x80)
    }
  }

  lemma PlansAgree(p: Publisher, payload: seq<bv8>)
    requires p.Valid()
    ensures p.PlanOf(payload) == Planned(p.Id(), CrcFor(p.signature, payload))
    ensures HeaderOf(p.Id() + FRAME_EFF) == p.HeaderSent()
  {
    hide HeaderOf, CrcFor, BroadcastId, ServiceId;
    match p {
      case Broadcaster(_, _, _, _) => BroadcastIdentifies(p.nodeId, p.signature, p.dataTypeId, p.priority, payload);
      case Requester(_, _, _, _, _) =>
        ServiceIdentifies(p.nodeId, p.dest, p.signature, p.dataTypeId, p.priority, true, payload);
    }
  }

  // ---------------------------------------------------------------------------------------------
  // Histories

  /** What happens at a node: a publisher's call, another call, or an event of queue, driver and controller. */
  datatype Activity = Publish(payload: seq<bv8>, transferId: bv8, free: nat) | Other(call: Call) | Happen(event: Event)

  function EventsOf(p: Publisher, a: Activity): seq<Event>
    requires p.Valid()
  {
    match a
    case Publish(payload, transferId, free) =>
      var c := Call(p.PlanOf(payload), transferId, payload, free);
      if Accepts(c) then Pushes(Queued(c)) else []
    case Other(c) => if Accepts(c) then Pushes(Queued(c)) else []
    case Happen(e) => [e]
  }

  function AllEvents(p: Publisher, acts: seq<Activity>): seq<Event>
    requires p.Valid()
  {
    if acts == [] then [] else EventsOf(p, acts[0]) + AllEvents(p, acts[1..])
  }

  /** The publisher's calls succeed, and pass on the transfer ID: each call uses the one the call before has returned.
      Nothing else at the node uses the publisher's identifier. */
  predicate PassesOn(p: Publisher, transferId: bv8, acts: seq<Activity>)
    requires p.Valid()
    decreases |acts|
  {
    acts != [] ==>
      match acts[0]
      case Publish(payload, t, free) =>
        && t == transferId && Succeeds(Call(p.PlanOf(payload), t, payload, free))
        && PassesOn(p, IncrementTransferId(t), acts[1..])
      case Other(c) => (Accepts(c) ==> c.plan.id != p.Id()) && PassesOn(p, transferId, acts[1..])
      case Happen(e) => (e.Push? ==> e.frame.id != p.Id() + FRAME_EFF) && PassesOn(p, transferId, acts[1..])
  }

  function Published(acts: seq<Activity>): seq<seq<bv8>> {
    if acts == [] then [] else (if acts[0].Publish? then [acts[0].payload] else []) + Published(acts[1..])
  }

  /** The frames of transfers with consecutive transfer IDs. */
  function Train(p: Publisher, transferId: bv8, payloads: seq<seq<bv8>>): seq<Frame>
    requires p.Valid()
    decreases |payloads|
  {
    if payloads == [] then []
    else TxFrames(p.Id(), transferId, CrcFor(p.signature, payloads[0]), payloads[0])
         + Train(p, NextId(transferId), payloads[1..])
  }

  // ---------------------------------------------------------------------------------------------
  // What was pushed

  function PushedBy(e: Event): seq<Frame> {
    if e.Push? then [e.frame] else []
  }

  function AllPushed(events: seq<Event>): seq<Frame> {
    if events == [] then [] else PushedBy(events[0]) + AllPushed(events[1..])
  }

  lemma {:induction false} RunPushes(s: System, events: seq<Event>)
    requires IsRun(s, events)
    ensures Run(s, events).pushed == s.pushed + AllPushed(events)
    decreases |events|
  {
    hide Insert, Enabled;
    if events != [] {
      RunPushes(Step(s, events[0]), events[1..]);
    }
  }

  lemma AllPushedMore(e: Event, rest: seq<Event>)
    ensures AllPushed([e] + rest) == PushedBy(e) + AllPushed(rest)
  {
    assert ([e] + rest)[1..] == rest;
  }

  lemma {:induction false} PushedConcat(a: seq<Event>, b: seq<Event>)
    ensures AllPushed(a + b) == AllPushed(a) + AllPushed(b)
  {
    if a == [] {
      assert a + b == b;
    } else {
      hide AllPushed, PushedBy;
      var first, rest := a[0], a[1..];
      assert a == [first] + rest && a + b == [first] + (rest + b);
      PushedConcat(rest, b);
      AllPushedMore(first, rest);
      AllPushedMore(first, rest + b);
      Regroup(PushedBy(first), AllPushed(rest), AllPushed(b));
    }
  }

  lemma {:induction false} PushesPush(frames: seq<Frame>)
    ensures AllPushed(Pushes(frames)) == frames
  {
    if frames != [] {
      PushesPush(frames[1..]);
      assert Pushes(frames)[1..] == Pushes(frames[1..]);
    }
  }

  lemma {:induction false} OfIdAll(q: seq<Frame>, id: Word)
    requires forall f | f in q :: f.id == id
    ensures OfId(q, id) == q
  {
    if q != [] {
      OfIdAll(q[1..], id);
    }
  }

  lemma OfIdQueued(c: Call, id: Word)
    requires Accepts(c)
    ensures c.plan.id + FRAME_EFF != id ==> OfId(Queued(c), id) == []
    ensures c.plan.id + FRAME_EFF == id && Succeeds(c) ==> OfId(Queued(c), id) == FramesOf(c)
  {
    hide TxFrames, OfId;
    TransferOfOneId(c.plan.id, c.transferId, c.plan.crc, c.payload);
    var q := Queued(c);
    forall f | f in q ensures f.id == c.plan.id + FRAME_EFF {
      assert f in FramesOf(c);
    }
    if c.plan.id + FRAME_EFF != id {
      OfIdNone(q, id);
    } else if Succeeds(c) {
      OfIdAll(q, id);
      assert q == FramesOf(c);
    }
  }

  /** Of the publisher's identifier, the calls queue the frames of consecutive transfers, and nothing else. */
  lemma {:induction false} TrainPushed(p: Publisher, transferId: bv8, acts: seq<Activity>)
    requires p.Valid() && transferId < 32 && PassesOn(p, transferId, acts)
    ensures OfId(AllPushed(AllEvents(p, acts)), p.Id() + FRAME_EFF) == Train(p, transferId, Published(acts))
    decreases |acts|
  {
    hide TxFrames, OfId, Queued, AllPushed, NextId, IncrementTransferId, CrcFor, Publisher.PlanOf, Publisher.Id,
         Publisher.Valid;
    var id := p.Id() + FRAME_EFF;
    if acts == [] {
      NothingPushed(id);
    } else {
      var a, rest := acts[0], acts[1..];
      PushedConcat(EventsOf(p, a), AllEvents(p, rest));
      OfIdConcat(AllPushed(EventsOf(p, a)), AllPushed(AllEvents(p, rest)), id);
      match a {
        case Publish(payload, t, free) =>
          var c := Call(p.PlanOf(payload), t, payload, free);
          PlansAgree(p, payload);
          PushesPush(Queued(c));
          OfIdQueued(c, id);
          IncrementIsNext(t);
          NextIdFits(t);
          TrainPushed(p, NextId(t), rest);
          assert Published(acts)[1..] == Published(rest);
        case Other(c) =>
          TrainPushed(p, transferId, rest);
          NothingPushed(id);
          if Accepts(c) {
            PushesPush(Queued(c));
            OfIdQueued(c, id);
          }
          assert Published(acts) == Published(rest);
        case Happen(e) =>
          TrainPushed(p, transferId, rest);
          NothingPushed(id);
          OneEvent(e, id);
          assert Published(acts) == Published(rest);
      }
    }
  }

  lemma NothingPushed(id: Word)
    ensures AllPushed([]) == [] && OfId([], id) == []
  {
  }

  lemma OneEvent(e: Event, id: Word)
    ensures AllPushed([e]) == PushedBy(e)
    ensures e.Push? && e.frame.id != id ==> OfId(AllPushed([e]), id) == []
  {
    assert AllPushed([e]) == PushedBy(e) + AllPushed([]);
  }
}

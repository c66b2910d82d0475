/** The instance over its life: what calls of its methods do, one after the other, is a history of the logical node. */
module History {
  import opened CanFrames
  import opened Reception
  import opened Transmission
  import opened Delivery
  import opened Upkeep
  import opened Isolation
  import opened Canard
  import Contents
  import Pool

  /** One call of the node: for a received frame, with what the application does if it completes a transfer; for the
      periodic cleanup; to send; or to take a frame off the queue. */
  datatype Deed =
    | Receive(frame: Frame, ts: nat, releases: bool, replies: seq<Outgoing>)
    | CleanUp(now: nat)
    | Send(call: Outgoing)
    | Take

  predicate Proper(d: Deed) {
    (d.Receive? ==> AllProper(d.replies)) && (d.Send? ==> d.call.Proper())
  }

  predicate ProperDeeds(deeds: seq<Deed>) {
    forall i | 0 <= i < |deeds| :: Proper(deeds[i])
  }

  /** What a call does to the logical node, if its frame trips no assertion. */
  function Effect(accept: Accept, n: Node, d: Deed): (m: Node)
    requires n.nodeId < 128 && Proper(d)
  {
    match d
    case Receive(f, ts, releases, replies) => HandleAnswered(accept, n, f, ts, releases, replies)
    case CleanUp(now) => Cleaned(n, now)
    case Send(call) => Transmitted(n, call.FramesFor(n.nodeId))
    case Take => if n.tx == [] then n else n.(tx := n.tx[1..], free := n.free + 1)
  }

  predicate Harmless(accept: Accept, n: Node, d: Deed) {
    d.Receive? ==> !Faults(accept, n, d.frame, d.ts)
  }

  /** The incidents a call stands for: a frame that completes a transfer is followed by what the application sends. */
  function IncidentsOf(accept: Accept, n: Node, d: Deed): seq<Incident>
    requires n.nodeId < 128 && Proper(d)
  {
    match d
    case Receive(f, ts, _, _) =>
      [Received(Arrival(f, ts))]
      + if |Handle(accept, n, f, ts).log| == |n.log| then [] else [Transmission(Effect(accept, n, d).tx)]
    case CleanUp(now) => [Cleanup(now)]
    case _ => [Transmission(Effect(accept, n, d).tx)]
  }

  /** The history that calls of a node stand for. */
  function Told(accept: Accept, n: Node, deeds: seq<Deed>): seq<Incident>
    requires n.nodeId < 128 && ProperDeeds(deeds)
    decreases |deeds|
  {
    if deeds == [] then []
    else
      EffectKeepsId(accept, n, deeds[0]);
      IncidentsOf(accept, n, deeds[0]) + Told(accept, Effect(accept, n, deeds[0]), deeds[1..])
  }

  lemma EffectKeepsId(accept: Accept, n: Node, d: Deed)
    requires n.nodeId < 128 && Proper(d)
    ensures Effect(accept, n, d).nodeId == n.nodeId
  {
    hide Handle, Called, InsertAll;
    if d.Receive? {
      HandleLends(accept, n, d.frame, d.ts, d.releases);
    }
  }

  // ---------------------------------------------------------------------------------------------
  // Calls as incidents

  /** Queueing takes its blocks from the free list. */
  lemma TransmittedOccurs(accept: Accept, n: Node, frames: seq<Frame>)
    ensures Transmitted(n, frames) == Occur(accept, n, Transmission(Transmitted(n, frames).tx))
  {
    hide InsertAll;
    InsertAllLength(n.tx, frames[..if |frames| <= n.free then |frames| else n.free]);
  }

  /** So do the answers to a transfer; what they do not find free, as the transfer holds it, is free afterwards. */
  lemma AnsweredOccurs(accept: Accept, n: Node, m: Node, lent: nat, replies: seq<Outgoing>)
    requires m.nodeId < 128 && AllProper(replies) && |m.log| != |n.log| && lent <= m.free
    ensures var a := Answered(n, m, lent, replies);
            a == Occur(accept, m, Transmission(a.tx)) && a.rx == m.rx
  {
    hide Called;
    CalledMoves(m.(free := m.free - lent), replies);
  }

  lemma {:induction false} RunsJoin(accept: Accept, n: Node, a: seq<Incident>, b: seq<Incident>)
    ensures RunNode(accept, n, a + b) == RunNode(accept, RunNode(accept, n, a), b)
    ensures RunsSmoothly(accept, n, a + b) <==>
            RunsSmoothly(accept, n, a) && RunsSmoothly(accept, RunNode(accept, n, a), b)
    decreases |a|
  {
    hide Occur, Faults;
    if a == [] {
      assert a + b == b;
    } else {
      RunsJoin(accept, Occur(accept, n, a[0]), a[1..], b);
      assert (a + b)[1..] == a[1..] + b;
    }
  }

  lemma ReceiveIsRun(accept: Accept, n: Node, d: Deed)
    requires n.nodeId < 128 && Proper(d) && d.Receive?
    ensures RunNode(accept, n, IncidentsOf(accept, n, d)) == Effect(accept, n, d)
    ensures RunsSmoothly(accept, n, IncidentsOf(accept, n, d)) <==> Harmless(accept, n, d)
    ensures Effect(accept, n, d).rx == Handle(accept, n, d.frame, d.ts).rx
  {
    hide Handle, Faults, Lending, Answered;
    var m, lent := Handle(accept, n, d.frame, d.ts), Lending(n, d.frame, d.releases);
    var e := Received(Arrival(d.frame, d.ts));
    HandleLends(accept, n, d.frame, d.ts, d.releases);
    assert Occur(accept, n, e) == m;
    if |m.log| == |n.log| {
      NoneAnswered(n, m, lent, d.replies);
      assert [e][1..] == [];
    } else {
      AnsweredOccurs(accept, n, m, lent, d.replies);
      ThenTransmission(accept, n, e, Effect(accept, n, d).tx);
    }
  }

  lemma ThenTransmission(accept: Accept, n: Node, e: Incident, tx: seq<Frame>)
    ensures var h := [e] + [Transmission(tx)];
            && RunNode(accept, n, h) == Occur(accept, Occur(accept, n, e), Transmission(tx))
            && (RunsSmoothly(accept, n, h) <==> RunsSmoothly(accept, n, [e]))
  {
    hide Occur, Faults;
    RunsJoin(accept, n, [e], [Transmission(tx)]);
    assert [Transmission(tx)][1..] == [] && [e][1..] == [];
  }

  lemma NoneAnswered(n: Node, m: Node, lent: nat, replies: seq<Outgoing>)
    requires m.nodeId < 128 && AllProper(replies) && |m.log| == |n.log|
    ensures Answered(n, m, lent, replies) == m
  {
  }

  /** A call does what the incidents it stands for do. */
  lemma EffectIsRun(accept: Accept, n: Node, d: Deed)
    requires n.nodeId < 128 && Proper(d)
    ensures RunNode(accept, n, IncidentsOf(accept, n, d)) == Effect(accept, n, d)
    ensures RunsSmoothly(accept, n, IncidentsOf(accept, n, d)) <==> Harmless(accept, n, d)
  {
    hide HandleAnswered, Handle, Transmitted, Cleaned;
    match d {
      case Receive(_, _, _, _) => ReceiveIsRun(accept, n, d);
      case CleanUp(now) => assert [Cleanup(now)][1..] == [];
      case Send(call) => TransmittedOccurs(accept, n, call.FramesFor(n.nodeId));
      case Take =>
    }
  }

  /** A history is told call by call. */
  lemma {:induction false} ToldSnoc(accept: Accept, n: Node, deeds: seq<Deed>, d: Deed)
    requires n.nodeId < 128 && ProperDeeds(deeds) && Proper(d)
    ensures var m := RunNode(accept, n, Told(accept, n, deeds));
            m.nodeId < 128 && Told(accept, n, deeds + [d]) == Told(accept, n, deeds) + IncidentsOf(accept, m, d)
    decreases |deeds|
  {
    hide Occur, IncidentsOf, Proper, Effect;
    if deeds == [] {
      assert deeds + [d] == [d] && [d][1..] == [];
    } else {
      var e, next := deeds[0], Effect(accept, n, deeds[0]);
      EffectKeepsId(accept, n, e);
      EffectIsRun(accept, n, e);
      ToldSnoc(accept, next, deeds[1..], d);
      RunsJoin(accept, n, IncidentsOf(accept, n, e), Told(accept, next, deeds[1..]));
      assert (deeds + [d])[1..] == deeds[1..] + [d];
    }
  }

  lemma TellNothing(accept: Accept, n: Node)
    requires n.nodeId < 128
    ensures Told(accept, n, []) == [] && RunNode(accept, n, []) == n && RunsSmoothly(accept, n, [])
  {
  }

  // ---------------------------------------------------------------------------------------------
  // The instance

  lemma EffectHealthy(accept: Accept, n: Node, d: Deed)
    requires n.nodeId < 128 && Proper(d) && AllHealthy(n.rx) && Harmless(accept, n, d)
    ensures AllHealthy(Effect(accept, n, d).rx)
  {
    hide Healthy, Stale, Cleaned, Handle, Faults, HandleAnswered;
    match d {
      case Receive(f, ts, _, _) =>
        HandleHealthy(accept, n, f, ts);
        ReceiveIsRun(accept, n, d);
      case CleanUp(now) =>
        CleanedKeeps(n, now);
        var m := Cleaned(n, now);
        forall i | 0 <= i < |m.rx| ensures Healthy(m.rx[i]) {
          assert m.rx[i] in m.rx;
        }
      case _ =>
    }
  }

  lemma OneHealthy(rx: seq<RxState>, d: Deed)
    requires AllHealthy(rx)
    ensures d.Receive? ==> OwnHealthy(rx, DescriptorOf(d.frame.id))
  {
  }

  /** One call does to the logical node what its effect says. */
  method Perform(ins: CanardInstance, d: Deed)
    requires ins.Valid() && Proper(d)
    modifies ins.arena, ins`freeList, ins`txQueue, ins`rxStates, ins`currentUsage, ins`peakUsage, ins`lists
    modifies ins`lent, ins`log, ins`readable
    ensures ins.Valid()
    ensures var n := old(ins.Abs());
            AllHealthy(n.rx) && Harmless(ins.accept, n, d) ==>
              && AllHealthy(ins.Abs().rx) && ins.Abs() == Effect(ins.accept, n, d)
              && (old(ins.readable) ==> ins.readable)
  {
    hide CanardInstance.Valid, CanardInstance.H, HandleAnswered, Faults, Transmitted, Cleaned, AllHealthy, Pool.Inv,
         Contents.TxOf, Contents.RxOf, OwnHealthy, Contained, OnlyAnswered;
    ghost var n := ins.Abs();
    ins.Numbered();
    if AllHealthy(n.rx) && Harmless(ins.accept, n, d) {
      EffectHealthy(ins.accept, n, d);
      OneHealthy(n.rx, d);
    }
    match d {
      case Receive(f, ts, releases, replies) => ins.HandleRxFrame(f, ts, releases, replies);
      case CleanUp(now) => ins.CleanupStaleTransfers(now);
      case Send(call) => ins.Send(call);
      case Take => TakeHead(ins);
    }
  }

  /** Takes the frame at the head off the queue, if there is one. */
  method TakeHead(ins: CanardInstance)
    requires ins.Valid()
    modifies ins.arena, ins`freeList, ins`txQueue, ins`currentUsage, ins`lists
    ensures ins.Valid() && ins.Abs() == Effect(ins.accept, old(ins.Abs()), Take)
  {
    hide CanardInstance.Valid, CanardInstance.H, Pool.Inv, Contents.TxOf, Contents.RxOf;
    ins.Numbered();
    var head := ins.PeekTxQueue();
    if head.Some? {
      ins.PopTxQueue();
    }
  }

  /** Any calls, one after the other, do to the logical node what the history they stand for does, as long as no frame
      trips an assertion. */
  method RunHistory(ins: CanardInstance, deeds: seq<Deed>)
    requires ins.Valid() && AllHealthy(ins.Abs().rx) && ProperDeeds(deeds)
    modifies ins.arena, ins`freeList, ins`txQueue, ins`rxStates, ins`currentUsage, ins`peakUsage, ins`lists
    modifies ins`lent, ins`log, ins`readable
    ensures ins.Valid()
    ensures var n := old(ins.Abs());
            var told := Told(ins.accept, n, deeds);
            RunsSmoothly(ins.accept, n, told) ==>
              ins.Abs() == RunNode(ins.accept, n, told) && (old(ins.readable) ==> ins.readable)
  {
    hide CanardInstance.Valid, CanardInstance.Abs, RunNode, RunsSmoothly, Occur, AllHealthy, Harmless, IncidentsOf,
         Effect, Told, Proper;
    ghost var n := ins.Abs();
    ins.Numbered();
    TellNothing(ins.accept, n);
    for i := 0 to |deeds|
      invariant ins.Valid()
      invariant RunsSmoothly(ins.accept, n, Told(ins.accept, n, deeds[..i])) ==>
                  && ins.Abs() == RunNode(ins.accept, n, Told(ins.accept, n, deeds[..i])) && AllHealthy(ins.Abs().rx)
                  && (old(ins.readable) ==> ins.readable)
    {
      ghost var told := Told(ins.accept, n, deeds[..i]);
      ghost var m := RunNode(ins.accept, n, told);
      ToldSnoc(ins.accept, n, deeds[..i], deeds[i]);
      RunsJoin(ins.accept, n, told, IncidentsOf(ins.accept, m, deeds[i]));
      EffectIsRun(ins.accept, m, deeds[i]);
      assert deeds[..i + 1] == deeds[..i] + [deeds[i]];
      Perform(ins, deeds[i]);
    }
    assert deeds[..|deeds|] == deeds;
  }

  /** The instance itself delivers streams: if the frames it is given interleave conforming streams, whatever else is
      called in between and out of the callback, its application has got every transfer of every stream, unchanged,
      once, and in order; and every payload was readable through the pointers handed over. */
  method ReceiveStreams(ins: CanardInstance, deeds: seq<Deed>, ghost streams: map<nat, Stream>, ghost descs: set<nat>)
    requires ins.Valid() && ProperDeeds(deeds) && Sound(ins.Abs(), descs) && streams.Keys <= descs
    modifies ins.arena, ins`freeList, ins`txQueue, ins`rxStates, ins`currentUsage, ins`peakUsage, ins`lists
    modifies ins`lent, ins`log, ins`readable
    ensures ins.Valid()
    ensures var n := old(ins.Abs());
            var told := Told(ins.accept, n, deeds);
            LeavesRoom(Capacity(n), descs, told) && Interleaves(ins.accept, n, told, streams) ==>
              && (old(ins.readable) ==> ins.readable)
              && forall d | d in streams ::
                   && ConformingTo(ins.accept, d, streams[d])
                   && LogOf(ins.log, d) == LogOf(n.log, d) + Expected(ins.accept, d, streams[d])
  {
    hide CanardInstance.Valid, RunNode, RunsSmoothly, Interleaves, LeavesRoom, LogOf, Expected, ConformingTo, Capacity,
         SlotOf, Told;
    ghost var n := ins.Abs();
    ins.Numbered();
    ghost var told := Told(ins.accept, n, deeds);
    RunHistory(ins, deeds);
    if LeavesRoom(Capacity(n), descs, told) && Interleaves(ins.accept, n, told, streams) {
      InterleavedStreams(ins.accept, n, told, streams, descs);
    }
  }

  // ---------------------------------------------------------------------------------------------
  // Room for what is sent

  /** Frames that a call of the node may add to the queue. */
  function DeedVolume(nodeId: nat, d: Deed): nat
    requires nodeId < 128 && Proper(d)
  {
    match d
    case Receive(_, _, _, replies) => Volume(nodeId, replies)
    case Send(call) => |call.FramesFor(nodeId)|
    case _ => 0
  }

  function TotalVolume(nodeId: nat, deeds: seq<Deed>): nat
    requires nodeId < 128 && ProperDeeds(deeds)
  {
    if deeds == [] then 0 else DeedVolume(nodeId, deeds[0]) + TotalVolume(nodeId, deeds[1..])
  }

  lemma QueueGrows(accept: Accept, n: Node, d: Deed)
    requires n.nodeId < 128 && Proper(d)
    ensures |Effect(accept, n, d).tx| <= |n.tx| + DeedVolume(n.nodeId, d)
  {
    hide Called, Volume, Transmitted, Handle;
    match d {
      case Receive(f, ts, releases, replies) =>
        var m, lent := Handle(accept, n, f, ts), Lending(n, f, releases);
        HandleLends(accept, n, f, ts, releases);
        HandleKeepsQueue(accept, n, f, ts);
        if |m.log| != |n.log| {
          CalledCount(m.(free := m.free - lent), replies);
        }
      case Send(call) => TransmittedMoves(n, call.FramesFor(n.nodeId));
      case _ =>
    }
  }

  lemma HandleKeepsQueue(accept: Accept, n: Node, f: Frame, ts: nat)
    ensures Handle(accept, n, f, ts).tx == n.tx
  {
    hide Advance, IsStart, Tail;
  }

  /** The room that streams need is left if the pool has it beside the queue and all frames that the calls send, even if
      none of them is ever taken off the queue. */
  lemma {:induction false} RoomSuffices(accept: Accept, n: Node, deeds: seq<Deed>, descs: set<nat>, capacity: nat)
    requires n.nodeId < 128 && ProperDeeds(deeds)
    requires |n.tx| + TotalVolume(n.nodeId, deeds) + PER_DESCRIPTOR * |descs| <= capacity
    ensures LeavesRoom(capacity, descs, Told(accept, n, deeds))
    decreases |deeds|
  {
    hide Effect, DeedVolume, Proper;
    if deeds != [] {
      var d, next := deeds[0], Effect(accept, n, deeds[0]);
      EffectKeepsId(accept, n, d);
      QueueGrows(accept, n, d);
      RoomSuffices(accept, next, deeds[1..], descs, capacity);
    }
  }
}

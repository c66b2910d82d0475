/** The transmitting half of the node's poll: it moves frames from libcanard's queue into the controller. */
module NodeLoop {
  import opened CanFrames
  import opened Reception
  import opened Contents
  import opened Bus
  import opened Canard
  import opened BxCan

  const MAX_FRAMES_PER_SPIN := 10

  /** The queue and the mailboxes as a state of the bus protocol. */
  function Stage(queue: seq<Frame>, boxes: seq<Option<Frame>>): System {
    System(queue, boxes, [], [], false)
  }

  predicate AllLoads(events: seq<Event>) {
    forall i | 0 <= i < |events| :: events[i].Load?
  }

  /** One round of the loop: moves the head of the queue into a mailbox, if there is one and it need not wait. */
  method SendHead(ins: CanardInstance, can: Controller) returns (moved: bool)
    requires ins.Valid() && can.Valid() && AllWellFormed(ins.Abs().tx)
    modifies ins.arena, ins`freeList, ins`txQueue, ins`currentUsage, ins`lists
    modifies can`empty, can`lastError, can`errorCount, can`abortRequested, can.mailboxes
    ensures ins.Valid() && can.Valid() && AllWellFormed(ins.Abs().tx)
    ensures var n, boxes := old(ins.Abs()), old(can.Boxes());
            && moved == (n.tx != [] && Loadable(boxes, n.tx[0]))
            && ins.Abs() == (if moved then n.(tx := n.tx[1..], free := n.free + 1) else n)
            && can.Boxes() == if moved then boxes[Chosen(boxes) := Some(n.tx[0])] else boxes
  {
    hide Controller.Boxes, Loadable, Chosen, OnBus, FrameIn, LoadedMailbox, AllWellFormed, WellFormedId, IsError,
         CanardInstance.Valid, CanardInstance.Consistent;
    PeekNeeds(ins);
    var txf := ins.PeekTxQueue();
    if txf.None? {
      return false;
    }
    ghost var queue := ins.Abs().tx;
    HeadWellFormed(queue);
    MailboxRoundTrip(txf.value);
    var result := can.Transmit(txf.value);
    if result == 0 {
      return false;
    }
    ins.PopTxQueue();
    RestWellFormed(queue);
    moved := true;
  }

  /** Every frame the loop takes off the queue goes into a mailbox where it beats all pending frames; nothing else of
      the instance changes. The loop stops after ten frames, or when the queue is empty or its head has to wait. */
  method PollTransmit(ins: CanardInstance, can: Controller) returns (ghost events: seq<Event>)
    requires ins.Valid() && can.Valid() && AllWellFormed(ins.Abs().tx)
    modifies ins.arena, ins`freeList, ins`txQueue, ins`currentUsage, ins`lists
    modifies can`empty, can`lastError, can`errorCount, can`abortRequested, can.mailboxes
    ensures ins.Valid() && can.Valid() && AllLoads(events) && |events| <= 10
    ensures IsRun(Stage(old(ins.Abs().tx), old(can.Boxes())), events)
    ensures Run(Stage(old(ins.Abs().tx), old(can.Boxes())), events) == Stage(ins.Abs().tx, can.Boxes())
    ensures ins.Abs() == old(ins.Abs()).(tx := ins.Abs().tx, free := old(ins.Abs().free) + |events|)
    ensures |events| == 10 || ins.Abs().tx == [] || !Loadable(can.Boxes(), ins.Abs().tx[0])
  {
    hide CanardInstance.Valid, CanardInstance.Abs, Controller.Boxes, Enabled, Step, Loadable, Chosen, IsRun, Run,
         AllWellFormed;
    ghost var n, s0 := ins.Abs(), Stage(ins.Abs().tx, can.Boxes());
    events := [];
    RunNothing(s0);
    for i := 0 to MAX_FRAMES_PER_SPIN
      invariant ins.Valid() && can.Valid() && AllWellFormed(ins.Abs().tx) && |events| == i && AllLoads(events)
      invariant IsRun(s0, events) && Run(s0, events) == Stage(ins.Abs().tx, can.Boxes())
      invariant ins.Abs() == n.(tx := ins.Abs().tx, free := n.free + i)
    {
      ghost var queue, boxes := ins.Abs().tx, can.Boxes();
      var moved := SendHead(ins, can);
      if !moved {
        return;
      }
      LoadStep(queue, boxes, queue[0]);
      RunSnoc(s0, events, Load(Chosen(boxes)));
      events := events + [Load(Chosen(boxes))];
    }
  }

  lemma RunNothing(s: System)
    ensures IsRun(s, []) && Run(s, []) == s
  {
  }

  lemma PeekNeeds(ins: CanardInstance)
    requires ins.Valid()
    ensures ins.Consistent() && ins.Abs().tx == TxOf(ins.H(), ins.lists)
  {
  }

  lemma HeadWellFormed(q: seq<Frame>)
    requires AllWellFormed(q) && q != []
    ensures WellFormedId(q[0].id) && !IsError(q[0].id)
  {
  }

  lemma RestWellFormed(q: seq<Frame>)
    requires AllWellFormed(q) && q != []
    ensures AllWellFormed(q[1..])
  {
  }

  /** What the driver does with the head of the queue is a step of the protocol. */
  lemma LoadStep(queue: seq<Frame>, boxes: seq<Option<Frame>>, f: Frame)
    requires |boxes| == MAILBOXES && queue != [] && f == queue[0] && Loadable(boxes, f)
    ensures Chosen(boxes) < MAILBOXES && Enabled(Stage(queue, boxes), Load(Chosen(boxes)))
    ensures Step(Stage(queue, boxes), Load(Chosen(boxes))) == Stage(queue[1..], boxes[Chosen(boxes) := Some(f)])
  {
  }

  /** What the loop does, it does in any state of the protocol with this queue and these mailboxes: it is covered by
      what holds of all runs. */
  lemma {:induction false} LoadsAnywhere(s: System, events: seq<Event>)
    requires AllLoads(events) && IsRun(Stage(s.queue, s.mailboxes), events)
    ensures IsRun(s, events)
    ensures var end := Run(Stage(s.queue, s.mailboxes), events);
            Run(s, events) == s.(queue := end.queue, mailboxes := end.mailboxes)
    decreases |events|
  {
    hide BeatsPending;
    if events != [] {
      assert events[0].Load?;
      LoadsAnywhere(Step(s, events[0]), events[1..]);
    }
  }
}

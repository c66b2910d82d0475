/** Frames of different transfer descriptors do not interfere, as long as the pool is large enough. */
module Isolation {
  import opened CanFrames
  import opened Reception
  import opened Delivery
  import opened Upkeep
  import Crc = TransferCrc

  // ---------------------------------------------------------------------------------------------
  // Histories of the whole instance

  /** The TX queue takes its blocks from where reception takes them, and gives them back. */
  function Occur(accept: Accept, n: Node, e: Incident): Node {
    match e
    case Received(a) => Handle(accept, n, a.frame, a.ts)
    case Cleanup(now) => Cleaned(n, now)
    case Transmission(tx) => n.(tx := tx, free := if |tx| <= n.free + |n.tx| then n.free + |n.tx| - |tx| else 0)
  }

  function RunNode(accept: Accept, n: Node, h: seq<Incident>): Node
    decreases |h|
  {
    if h == [] then n else RunNode(accept, Occur(accept, n, h[0]), h[1..])
  }

  /** No frame of the history trips an assertion of the instance. */
  predicate RunsSmoothly(accept: Accept, n: Node, h: seq<Incident>)
    decreases |h|
  {
    h != [] ==>
      && (h[0].Received? ==> !Faults(accept, n, h[0].arrival.frame, h[0].arrival.ts))
      && RunsSmoothly(accept, Occur(accept, n, h[0]), h[1..])
  }

  /** Whatever a node receives: from no reception states at all it hands over only transfers of kinds that the
      application has accepted, and only messages and what is addressed to it. */
  lemma {:induction false} OnlyWanted(accept: Accept, n: Node, h: seq<Incident>)
    requires StatesWanted(accept, n.nodeId, n.rx)
    ensures var m := RunNode(accept, n, h);
            && StatesWanted(accept, n.nodeId, m.rx) && LogWanted(accept, n.nodeId, n.log, m.log)
            && n.log <= m.log
            && forall k | |n.log| <= k < |m.log| ::
                 var t := m.log[k].header;
                 && accept(t.dataTypeId, t.kind, t.source).Some?
                 && (t.kind != CanFrames.Broadcast ==> t.dest == n.nodeId)
    decreases |h|
  {
    hide StatesWanted, Handle, Cleaned;
    if h != [] {
      match h[0] {
        case Received(a) => HandleWanted(accept, n, a.frame, a.ts);
        case Cleanup(now) => CleanedWanted(accept, n, now);
        case Transmission(tx) =>
      }
      var next := Occur(accept, n, h[0]);
      OnlyWanted(accept, next, h[1..]);
    }
  }

  lemma CleanedWanted(accept: Accept, n: Node, now: nat)
    requires StatesWanted(accept, n.nodeId, n.rx)
    ensures var m := Cleaned(n, now); StatesWanted(accept, n.nodeId, m.rx) && m.log == n.log && m.nodeId == n.nodeId
  {
    hide Stale, DescriptorWanted;
    CleanedKeeps(n, now);
    var m := Cleaned(n, now);
    forall i | 0 <= i < |m.rx| ensures DescriptorWanted(accept, n.nodeId, m.rx[i].desc) {
      assert m.rx[i] in m.rx;
    }
  }

  predicate Belongs(nodeId: nat, desc: nat, a: Arrival) {
    Relevant(nodeId, a.frame) && DescriptorOf(a.frame.id) == desc
  }

  /** What happens to one descriptor: its frames, and every cleanup. */
  predicate Concerns(nodeId: nat, desc: nat, e: Incident) {
    e.Cleanup? || (e.Received? && Belongs(nodeId, desc, e.arrival))
  }

  function Own(nodeId: nat, desc: nat, h: seq<Incident>): (own: seq<Incident>)
    ensures AllTailed(own)
  {
    if h == [] then [] else (if Concerns(nodeId, desc, h[0]) then [h[0]] else []) + Own(nodeId, desc, h[1..])
  }

  /** The transfers of one descriptor. */
  function LogOf(log: seq<Transfer>, desc: nat): seq<Transfer> {
    if log == [] then []
    else LogOf(log[..|log| - 1], desc)
         + if MakeDescriptor(log[|log| - 1].header) == desc then [log[|log| - 1]] else []
  }

  function SlotOf(n: Node, desc: nat): Slot {
    var i := Find(n.rx, desc);
    if i < |n.rx| then Some(n.rx[i]) else None
  }

  predicate Within(rx: seq<RxState>, descs: set<nat>) {
    forall i | 0 <= i < |rx| :: rx[i].desc in descs
  }

  /** Blocks one descriptor can take: its state and the buffers of the longest payload. */
  const PER_DESCRIPTOR := AMPLE + 1

  /** The pool, without what the TX queue takes, has room for the longest payload of every descriptor at once. */
  predicate Roomy(n: Node, descs: set<nat>) {
    n.free + Taken(n.rx) >= PER_DESCRIPTOR * |descs|
  }

  /** All blocks but those lent to the application. */
  function Capacity(n: Node): nat {
    n.free + Taken(n.rx) + |n.tx|
  }

  /** What every step of a history keeps. */
  predicate Sound(n: Node, descs: set<nat>) {
    AllHealthy(n.rx) && Unique(n.rx) && Within(n.rx, descs) && Roomy(n, descs)
  }

  // ---------------------------------------------------------------------------------------------
  // Room

  lemma BlocksBound(s: RxState)
    requires Healthy(s)
    ensures s.blocks <= AMPLE
  {
  }

  lemma {:induction false} TakenBound(rx: seq<RxState>)
    requires AllHealthy(rx)
    ensures Taken(rx) <= PER_DESCRIPTOR * |rx|
  {
    hide Healthy;
    if rx != [] {
      BlocksBound(rx[0]);
      TakenBound(rx[1..]);
    }
  }

  lemma {:induction false} TakenAt(rx: seq<RxState>, i: nat, s: RxState)
    requires i < |rx|
    ensures Taken(rx[i := s]) == Taken(rx) - rx[i].blocks + s.blocks
  {
    if i == 0 {
      assert rx[i := s][1..] == rx[1..];
    } else {
      TakenAt(rx[1..], i - 1, s);
      assert rx[i := s][1..] == rx[1..][i - 1 := s];
    }
  }

  lemma TakenOthers(rx: seq<RxState>, i: nat)
    requires i < |rx| && AllHealthy(rx)
    ensures Taken(rx) <= PER_DESCRIPTOR * (|rx| - 1) + 1 + rx[i].blocks
  {
    hide Healthy;
    var s := rx[i].(blocks := 0, payload := []);
    EmptiedHealthy(rx[i]);
    TakenAt(rx, i, s);
    TakenBoundWith(rx[i := s], i);
  }

  lemma EmptiedHealthy(s: RxState)
    requires Healthy(s)
    ensures Healthy(s.(blocks := 0, payload := []))
  {
  }

  lemma {:induction false} TakenBoundWith(rx: seq<RxState>, i: nat)
    requires i < |rx| && AllHealthy(rx) && rx[i].blocks == 0
    ensures Taken(rx) <= PER_DESCRIPTOR * (|rx| - 1) + 1
  {
    hide Healthy;
    if i == 0 {
      TakenBound(rx[1..]);
    } else {
      BlocksBound(rx[0]);
      TakenBoundWith(rx[1..], i - 1);
    }
  }

  lemma {:induction false} StatesFit(rx: seq<RxState>, descs: set<nat>)
    requires Unique(rx) && Within(rx, descs)
    ensures |rx| <= |descs|
  {
    if rx != [] {
      assert Within(rx[1..], descs - {rx[0].desc});
      StatesFit(rx[1..], descs - {rx[0].desc});
    }
  }

  /** In a roomy pool no frame runs out of blocks. */
  lemma EnoughFor(n: Node, descs: set<nat>, desc: nat)
    requires Sound(n, descs) && desc in descs
    ensures var i := Find(n.rx, desc);
            if i < |n.rx| then n.free + n.rx[i].blocks >= AMPLE else n.free > AMPLE
  {
    hide AllHealthy, Unique, Find, Taken;
    if Find(n.rx, desc) < |n.rx| {
      StatesFit(n.rx, descs);
      TakenOthers(n.rx, Find(n.rx, desc));
    } else {
      OneMissing(n.rx, descs, desc);
      StatesFit(n.rx, descs - {desc});
      TakenBound(n.rx);
    }
  }

  lemma OneMissing(rx: seq<RxState>, descs: set<nat>, desc: nat)
    requires Within(rx, descs) && desc in descs && Find(rx, desc) == |rx|
    ensures Within(rx, descs - {desc}) && |descs - {desc}| == |descs| - 1
  {
  }

  lemma AdvanceAmple(s: RxState, f: Frame, ts: nat, free: nat)
    requires f.data != [] && Healthy(s) && !Trips(s, f, ts) && free + s.blocks >= AMPLE
    ensures Advance(s, f, ts, free) == Advance(s, f, ts, AMPLE)
  {
    hide IsStart, IsEnd, Toggle, TransferIdOf, Tail, Stored, NeedRestart, BlocksAfter, Healthy, NextId;
    var r := Current(s, Tail(f), ts);
    HealthyCurrent(s, Tail(f), ts);
    if |r.payload| + |Stored(f)| < LENGTH_LIMIT {
      AfterBound(|r.payload|, |Stored(f)|);
    }
  }

  // ---------------------------------------------------------------------------------------------
  // One step

  /** A step on the state at position i touches no other slot. */
  lemma SlotUpdated(n: Node, i: nat, s: RxState, m: Node)
    requires i < |n.rx| && Unique(n.rx) && s.desc == n.rx[i].desc && m.rx == n.rx[i := s]
    ensures forall e: nat :: SlotOf(m, e) == if e == s.desc then Some(s) else SlotOf(n, e)
  {
    forall e: nat ensures SlotOf(m, e) == if e == s.desc then Some(s) else SlotOf(n, e) {
      FindIs(m.rx, e, if e == s.desc then i else Find(n.rx, e));
    }
  }

  lemma SlotPrepended(n: Node, s: RxState, m: Node)
    requires m.rx == [s] + n.rx
    ensures forall e: nat :: SlotOf(m, e) == if e == s.desc then Some(s) else SlotOf(n, e)
  {
    forall e: nat ensures SlotOf(m, e) == if e == s.desc then Some(s) else SlotOf(n, e) {
      FindIs(m.rx, e, if e == s.desc then 0 else 1 + Find(n.rx, e));
    }
  }

  /** What a frame does to the instance, seen slot by slot. */
  ghost predicate Steps(n: Node, m: Node, desc: nat, o: Served) {
    && SlotOf(m, desc) == o.slot && (forall e: nat | e != desc :: SlotOf(m, e) == SlotOf(n, e))
    && m.log == n.log + Listed(o.delivered) && m.nodeId == n.nodeId && m.tx == n.tx && Capacity(m) == Capacity(n)
  }

  lemma FeedSteps(n: Node, descs: set<nat>, i: nat, f: Frame, ts: nat)
    requires i < |n.rx| && f.data != [] && Sound(n, descs) && !Trips(n.rx[i], f, ts)
    requires n.free + n.rx[i].blocks >= AMPLE
    ensures var m := Feed(n, i, f, ts);
            Sound(m, descs) && Steps(n, m, n.rx[i].desc, ServedBy(Advance(n.rx[i], f, ts, AMPLE)))
  {
    hide Healthy, Trips, Advance, Taken, Unique, SlotOf, Find, AllHealthy;
    HealthyState(n.rx, i);
    AdvanceAmple(n.rx[i], f, ts, n.free);
    var o := Advance(n.rx[i], f, ts, n.free);
    FeedHealthy(n, i, f, ts);
    UniqueUpdate(n.rx, i, o.state);
    TakenAt(n.rx, i, o.state);
    SlotUpdated(n, i, o.state, Feed(n, i, f, ts));
  }

  /** Creating or reopening the state of a start frame. */
  lemma OpenSteps(n: Node, descs: set<nat>, f: Frame, ts: nat, signature: bv64)
    requires f.data != [] && IsStart(Tail(f)) && Sound(n, descs) && DescriptorOf(f.id) in descs
    requires Find(n.rx, DescriptorOf(f.id)) < |n.rx| || n.free > 0
    ensures var desc := DescriptorOf(f.id); var m := Opened(n, desc, signature); var i := Find(n.rx, desc);
            var j := if i < |n.rx| then i else 0;
            && Sound(m, descs) && Steps(n, m, desc, Served(Some(OpenSlot(SlotOf(n, desc), desc, signature)), None))
            && j < |m.rx| && m.rx[j] == OpenSlot(SlotOf(n, desc), desc, signature) && m.rx[j].desc == desc
            && (Trips(m.rx[j], f, ts) ==> i < |n.rx| && Trips(n.rx[i], f, ts))
            && m.free + m.rx[j].blocks == if i < |n.rx| then n.free + n.rx[i].blocks else n.free - 1
  {
    hide AllHealthy, Unique, Taken, Trips, DescriptorOf, IsStart, Tail, Crc.AddSignature;
    OpenedState(n, f, ts, signature);
    var desc := DescriptorOf(f.id);
    var i := Find(n.rx, desc);
    var s := OpenSlot(SlotOf(n, desc), desc, signature);
    if i < |n.rx| {
      UniqueUpdate(n.rx, i, s);
      TakenAt(n.rx, i, s);
      SlotUpdated(n, i, s, Opened(n, desc, signature));
    } else {
      UniquePrepend(n.rx, s);
      TakenPrepend(s, n.rx);
      SlotPrepended(n, s, Opened(n, desc, signature));
    }
  }

  lemma TakenPrepend(s: RxState, rx: seq<RxState>)
    ensures Taken([s] + rx) == 1 + s.blocks + Taken(rx)
  {
    assert ([s] + rx)[1..] == rx;
  }

  lemma SlotIs(n: Node, desc: nat)
    ensures var i := Find(n.rx, desc); SlotOf(n, desc) == if i < |n.rx| then Some(n.rx[i]) else None
  {
  }

  /** A relevant frame is served by its own slot. */
  lemma HandleSteps(accept: Accept, n: Node, descs: set<nat>, a: Arrival)
    requires Sound(n, descs) && Relevant(n.nodeId, a.frame) && DescriptorOf(a.frame.id) in descs
    requires !ServeTrips(accept, SlotOf(n, DescriptorOf(a.frame.id)), a)
    ensures !Faults(accept, n, a.frame, a.ts)
    ensures var desc := DescriptorOf(a.frame.id); var m := Handle(accept, n, a.frame, a.ts);
            Sound(m, descs) && Steps(n, m, desc, Serve(accept, SlotOf(n, desc), a))
  {
    hide AllHealthy, Unique, Taken, Trips, DescriptorOf, IsStart, Tail, Sound, Advance, Feed, Opened, Signature,
         OpenSlot, IsExtended, IsRemote, IsError, ExtractTransferType, HeaderOf, SlotOf;
    var f, ts, desc := a.frame, a.ts, DescriptorOf(a.frame.id);
    EnoughFor(n, descs, desc);
    SlotIs(n, desc);
    var i := Find(n.rx, desc);
    if IsStart(Tail(f)) {
      match Signature(accept, f) {
        case None =>
        case Some(signature) =>
          OpenSteps(n, descs, f, ts, signature);
          FeedSteps(Opened(n, desc, signature), descs, if i < |n.rx| then i else 0, f, ts);
      }
    } else if i < |n.rx| {
      FeedSteps(n, descs, i, f, ts);
    }
  }

  // ---------------------------------------------------------------------------------------------
  // Cleanup and transmission

  lemma FreshUnique(rx: seq<RxState>, now: nat)
    requires Unique(rx)
    ensures Unique(Fresh(rx, now))
  {
    hide Fresh, Stale;
    var m := Fresh(rx, now);
    forall i, j | 0 <= i < j < |m| ensures m[i].desc != m[j].desc {
      OriginsInOrder(rx, now, i, j);
    }
  }

  lemma FreshSlot(n: Node, now: nat, m: Node, d: nat)
    requires m.rx == Fresh(n.rx, now) && Unique(n.rx) && forall s :: s in m.rx <==> s in n.rx && !Stale(s, now)
    ensures SlotOf(m, d) == CleanedSlot(SlotOf(n, d), now)
  {
    hide Fresh, Stale;
    FreshUnique(n.rx, now);
    var i, j := Find(n.rx, d), Find(m.rx, d);
    if j < |m.rx| {
      assert m.rx[j] in n.rx;
      var k :| 0 <= k < |n.rx| && n.rx[k] == m.rx[j];
      FindUnique(n.rx, k);
    }
    if i < |n.rx| && !Stale(n.rx[i], now) {
      assert n.rx[i] in m.rx;
      var k :| 0 <= k < |m.rx| && m.rx[k] == n.rx[i];
      FindUnique(m.rx, k);
    }
  }

  lemma FindUnique(rx: seq<RxState>, k: nat)
    requires Unique(rx) && k < |rx|
    ensures Find(rx, rx[k].desc) == k
  {
    FindIs(rx, rx[k].desc, k);
  }

  lemma CleanupSteps(n: Node, descs: set<nat>, now: nat)
    requires Sound(n, descs)
    ensures var m := Cleaned(n, now);
            && Sound(m, descs) && Capacity(m) == Capacity(n)
            && forall d: nat :: SlotOf(m, d) == CleanedSlot(SlotOf(n, d), now)
  {
    hide Fresh, StaleBlocks, Stale, Healthy, Taken, Find, SlotOf, CleanedSlot, Unique;
    CleanedKeeps(n, now);
    FreshUnique(n.rx, now);
    var m := Cleaned(n, now);
    forall d: nat ensures SlotOf(m, d) == CleanedSlot(SlotOf(n, d), now) {
      FreshSlot(n, now, m, d);
    }
    forall i | 0 <= i < |m.rx| ensures Healthy(m.rx[i]) && m.rx[i].desc in descs {
      assert m.rx[i] in n.rx;
    }
  }

  // ---------------------------------------------------------------------------------------------
  // Logs

  lemma LogSplit(a: seq<Transfer>, b: seq<Transfer>, d: nat)
    ensures LogOf(a + b, d) == LogOf(a, d) + LogOf(b, d)
  {
    if b == [] {
      assert a + b == a;
    } else {
      assert (a + b)[..|a + b| - 1] == a + b[..|b| - 1];
      LogSplit(a, b[..|b| - 1], d);
    }
  }

  /** A delivered transfer carries the descriptor of its last frame. */
  lemma DeliveredDescriptor(accept: Accept, slot: Slot, a: Arrival)
    requires a.frame.data != []
    ensures var t := Serve(accept, slot, a).delivered;
            t.Some? ==> MakeDescriptor(t.value.header) == DescriptorOf(a.frame.id)
  {
    hide IsStart, IsEnd, Toggle, TransferIdOf, Tail, Body, HeaderOf, MakeDescriptor, Current, NeedRestart, Append,
         Crc.Add, OpenSlot, Signature;
  }

  lemma StepLog(accept: Accept, slot: Slot, a: Arrival, log: seq<Transfer>, d: nat)
    requires a.frame.data != []
    ensures LogOf(log + Listed(Serve(accept, slot, a).delivered), d) ==
            LogOf(log, d) + if d == DescriptorOf(a.frame.id) then Listed(Serve(accept, slot, a).delivered) else []
  {
    hide Serve, DescriptorOf, MakeDescriptor;
    DeliveredDescriptor(accept, slot, a);
    var new_ := Listed(Serve(accept, slot, a).delivered);
    LogSplit(log, new_, d);
    assert new_ != [] ==> new_[..|new_| - 1] == [];
  }

  // ---------------------------------------------------------------------------------------------
  // Histories

  /** Every relevant frame of the history has one of these descriptors. */
  predicate Covers(descs: set<nat>, nodeId: nat, h: seq<Incident>) {
    forall i | 0 <= i < |h| && h[i].Received? && Relevant(nodeId, h[i].arrival.frame) ::
           DescriptorOf(h[i].arrival.frame.id) in descs
  }

  /** The TX queue always leaves room for the longest payload of every descriptor at once. */
  predicate LeavesRoom(capacity: nat, descs: set<nat>, h: seq<Incident>) {
    forall i | 0 <= i < |h| && h[i].Transmission? :: |h[i].tx| + PER_DESCRIPTOR * |descs| <= capacity
  }

  /** The TX queue in the end. */
  function QueueAfter(tx: seq<Frame>, h: seq<Incident>): seq<Frame>
    decreases |h|
  {
    if h == [] then tx else QueueAfter(if h[0].Transmission? then h[0].tx else tx, h[1..])
  }

  /** The incidents of each descriptor alone would trip no assertion. */
  ghost predicate SmoothAlone(accept: Accept, n: Node, h: seq<Incident>, descs: set<nat>) {
    forall d | d in descs :: SlotSmooth(accept, SlotOf(n, d), Own(n.nodeId, d, h))
  }

  /** Each descriptor got what its own incidents alone would have brought it. */
  ghost predicate Isolated(accept: Accept, n: Node, h: seq<Incident>, m: Node, descs: set<nat>) {
    forall d | d in descs ::
      && SlotOf(m, d) == SlotAfter(accept, SlotOf(n, d), Own(n.nodeId, d, h))
      && LogOf(m.log, d) == LogOf(n.log, d) + SlotDelivers(accept, SlotOf(n, d), Own(n.nodeId, d, h))
  }

  /** What one incident does to the slot of a descriptor and to its transfers. */
  function MeetsAs(accept: Accept, n: Node, d: nat, e: Incident): Served {
    if Concerns(n.nodeId, d, e) then Meet(accept, SlotOf(n, d), e) else Served(SlotOf(n, d), None)
  }

  ghost predicate Follows(accept: Accept, n: Node, m: Node, e: Incident, descs: set<nat>) {
    && (forall d | d in descs ::
          && SlotOf(m, d) == MeetsAs(accept, n, d, e).slot
          && LogOf(m.log, d) == LogOf(n.log, d) + Listed(MeetsAs(accept, n, d, e).delivered))
    && m.nodeId == n.nodeId && m.tx == QueueAfter(n.tx, [e]) && Capacity(m) == Capacity(n)
  }

  lemma FrameFollows(accept: Accept, n: Node, descs: set<nat>, a: Arrival)
    requires Sound(n, descs) && Relevant(n.nodeId, a.frame) && DescriptorOf(a.frame.id) in descs
    requires !ServeTrips(accept, SlotOf(n, DescriptorOf(a.frame.id)), a)
    ensures !Faults(accept, n, a.frame, a.ts)
    ensures Sound(Handle(accept, n, a.frame, a.ts), descs)
    ensures Follows(accept, n, Handle(accept, n, a.frame, a.ts), Received(a), descs)
  {
    hide Sound, Relevant, DescriptorOf, SlotOf, LogOf, Serve, ServeTrips, Handle, Faults, Capacity, Listed;
    HandleSteps(accept, n, descs, a);
    RelevantHasTail(n.nodeId, a.frame);
    var m, d0 := Handle(accept, n, a.frame, a.ts), DescriptorOf(a.frame.id);
    QueueKept(n.tx, Received(a));
    forall d | d in descs
      ensures SlotOf(m, d) == MeetsAs(accept, n, d, Received(a)).slot
      ensures LogOf(m.log, d) == LogOf(n.log, d) + Listed(MeetsAs(accept, n, d, Received(a)).delivered)
    {
      StepLog(accept, SlotOf(n, d0), a, n.log, d);
      NothingListed();
    }
  }

  lemma NothingListed()
    ensures Listed(None) == []
  {
  }

  lemma QueueKept(tx: seq<Frame>, e: Incident)
    ensures QueueAfter(tx, [e]) == if e.Transmission? then e.tx else tx
  {
  }

  lemma RelevantHasTail(nodeId: nat, f: Frame)
    requires Relevant(nodeId, f)
    ensures f.data != []
  {
  }

  lemma OtherFollows(accept: Accept, n: Node, descs: set<nat>, e: Incident)
    requires Sound(n, descs) && (e.Received? ==> !Relevant(n.nodeId, e.arrival.frame))
    requires e.Transmission? ==> |e.tx| + PER_DESCRIPTOR * |descs| <= Capacity(n)
    ensures e.Received? ==> !Faults(accept, n, e.arrival.frame, e.arrival.ts)
    ensures Sound(Occur(accept, n, e), descs) && Follows(accept, n, Occur(accept, n, e), e, descs)
  {
    hide Relevant, LogOf, Cleaned, SlotOf, Taken, AllHealthy, Unique, Within, Roomy, CleanedSlot, Fresh, StaleBlocks;
    QueueKept(n.tx, e);
    NothingListed();
    match e {
      case Received(a) =>
      case Cleanup(now) =>
        CleanupSteps(n, descs, now);
        LogKept(n, now);
      case Transmission(tx) => RoomLeft(n, descs, tx);
    }
  }

  lemma LogKept(n: Node, now: nat)
    ensures var m := Cleaned(n, now); m.log == n.log && m.nodeId == n.nodeId && m.tx == n.tx
  {
  }

  lemma RoomLeft(n: Node, descs: set<nat>, tx: seq<Frame>)
    requires Sound(n, descs) && |tx| + PER_DESCRIPTOR * |descs| <= Capacity(n)
    ensures var m := n.(tx := tx, free := if |tx| <= n.free + |n.tx| then n.free + |n.tx| - |tx| else 0);
            Sound(m, descs) && Capacity(m) == Capacity(n) && forall d: nat :: SlotOf(m, d) == SlotOf(n, d)
  {
    hide AllHealthy, Unique, Within, Find;
    StatesFit(n.rx, descs);
    TakenBound(n.rx);
  }

  /** Whatever happens between its frames, each descriptor gets exactly what its own frames and the cleanups alone would
      bring it; and if no descriptor's own frames trip an assertion, none is tripped. */
  lemma {:induction false} NonInterference(accept: Accept, n: Node, h: seq<Incident>, descs: set<nat>)
    requires Sound(n, descs) && Covers(descs, n.nodeId, h) && LeavesRoom(Capacity(n), descs, h)
    requires SmoothAlone(accept, n, h, descs)
    ensures RunsSmoothly(accept, n, h)
    ensures var m := RunNode(accept, n, h);
            && Isolated(accept, n, h, m, descs) && Sound(m, descs)
            && m.nodeId == n.nodeId && m.tx == QueueAfter(n.tx, h) && Capacity(m) == Capacity(n)
    decreases |h|
  {
    hide Sound, Relevant, DescriptorOf, SlotOf, LogOf, Serve, ServeTrips, Handle, Faults, SlotSmooth, SlotAfter,
         SlotDelivers, Own, Belongs, SmoothAlone, Isolated, Occur, Capacity, MeetsAs;
    if h == [] {
      NothingRuns(accept, n, descs);
    } else {
      var e, rest := h[0], h[1..];
      var next := Occur(accept, n, e);
      NextFollows(accept, n, h, descs);
      SmoothRest(accept, n, h, next, descs);
      NonInterference(accept, next, rest, descs);
      IsolatedMore(accept, n, h, next, RunNode(accept, n, h), descs);
      QueueKept(n.tx, e);
    }
  }

  lemma NextFollows(accept: Accept, n: Node, h: seq<Incident>, descs: set<nat>)
    requires Sound(n, descs) && Covers(descs, n.nodeId, h) && LeavesRoom(Capacity(n), descs, h)
    requires SmoothAlone(accept, n, h, descs)
    requires h != []
    ensures h[0].Received? ==> !Faults(accept, n, h[0].arrival.frame, h[0].arrival.ts)
    ensures Sound(Occur(accept, n, h[0]), descs) && Follows(accept, n, Occur(accept, n, h[0]), h[0], descs)
  {
    hide Sound, Relevant, DescriptorOf, SlotOf, LogOf, ServeTrips, Handle, Faults, SlotSmooth, Own, SmoothAlone,
         Capacity, Follows, Cleaned;
    if h[0].Received? && Relevant(n.nodeId, h[0].arrival.frame) {
      OwnFirst(accept, n, h, descs);
      FrameFollows(accept, n, descs, h[0].arrival);
    } else {
      OtherFollows(accept, n, descs, h[0]);
    }
  }

  lemma NothingRuns(accept: Accept, n: Node, descs: set<nat>)
    ensures Isolated(accept, n, [], n, descs)
  {
    forall d: nat ensures Own(n.nodeId, d, []) == [] && SlotDelivers(accept, SlotOf(n, d), []) == [] {
    }
  }

  lemma OwnIs(nodeId: nat, d: nat, h: seq<Incident>)
    requires h != []
    ensures Own(nodeId, d, h) ==
            if Concerns(nodeId, d, h[0]) then [h[0]] + Own(nodeId, d, h[1..]) else Own(nodeId, d, h[1..])
    ensures Concerns(nodeId, d, h[0]) && h[0].Received? ==> h[0].arrival.frame.data != []
  {
  }

  lemma OwnFirst(accept: Accept, n: Node, h: seq<Incident>, descs: set<nat>)
    requires h != [] && SmoothAlone(accept, n, h, descs) && h[0].Received? && Relevant(n.nodeId, h[0].arrival.frame)
    requires DescriptorOf(h[0].arrival.frame.id) in descs
    ensures !ServeTrips(accept, SlotOf(n, DescriptorOf(h[0].arrival.frame.id)), h[0].arrival)
  {
    hide ServeTrips, SlotOf, Serve, DescriptorOf, Own, Relevant, SlotSmooth;
    var d := DescriptorOf(h[0].arrival.frame.id);
    OwnIs(n.nodeId, d, h);
    assert SlotSmooth(accept, SlotOf(n, d), Own(n.nodeId, d, h));
    MeetFirst(accept, SlotOf(n, d), h[0], Own(n.nodeId, d, h[1..]));
  }

  lemma SmoothRest(accept: Accept, n: Node, h: seq<Incident>, next: Node, descs: set<nat>)
    requires h != [] && SmoothAlone(accept, n, h, descs) && Follows(accept, n, next, h[0], descs)
    ensures SmoothAlone(accept, next, h[1..], descs)
  {
    hide SlotOf, Meet, MeetTrips, Own, Concerns, SlotSmooth, LogOf, Capacity;
    forall d | d in descs ensures SlotSmooth(accept, SlotOf(next, d), Own(next.nodeId, d, h[1..])) {
      OwnIs(n.nodeId, d, h);
      assert SlotSmooth(accept, SlotOf(n, d), Own(n.nodeId, d, h));
      if Concerns(n.nodeId, d, h[0]) {
        MeetFirst(accept, SlotOf(n, d), h[0], Own(n.nodeId, d, h[1..]));
      }
    }
  }

  lemma IsolatedMore(accept: Accept, n: Node, h: seq<Incident>, next: Node, m: Node, descs: set<nat>)
    requires h != [] && Follows(accept, n, next, h[0], descs) && Isolated(accept, next, h[1..], m, descs)
    ensures Isolated(accept, n, h, m, descs)
  {
    hide SlotOf, Own, SlotAfter, SlotDelivers, LogOf, Listed, MeetsAs, Capacity;
    forall d | d in descs
      ensures SlotOf(m, d) == SlotAfter(accept, SlotOf(n, d), Own(n.nodeId, d, h))
      ensures LogOf(m.log, d) == LogOf(n.log, d) + SlotDelivers(accept, SlotOf(n, d), Own(n.nodeId, d, h))
    {
      OwnMeets(accept, n, h, d);
      Regroup(LogOf(n.log, d), Listed(MeetsAs(accept, n, d, h[0]).delivered),
              SlotDelivers(accept, SlotOf(next, d), Own(n.nodeId, d, h[1..])));
    }
  }

  lemma OwnMeets(accept: Accept, n: Node, h: seq<Incident>, d: nat)
    requires h != []
    ensures var own, rest, o := Own(n.nodeId, d, h), Own(n.nodeId, d, h[1..]), MeetsAs(accept, n, d, h[0]);
            && SlotAfter(accept, SlotOf(n, d), own) == SlotAfter(accept, o.slot, rest)
            && SlotDelivers(accept, SlotOf(n, d), own) == Listed(o.delivered) + SlotDelivers(accept, o.slot, rest)
  {
    hide SlotOf, Meet, MeetTrips, Own, Concerns, SlotAfter, SlotDelivers, LogOf, Listed;
    OwnIs(n.nodeId, d, h);
    NothingListed();
    if Concerns(n.nodeId, d, h[0]) {
      MeetFirst(accept, SlotOf(n, d), h[0], Own(n.nodeId, d, h[1..]));
    } else {
      Regroup([], [], SlotDelivers(accept, SlotOf(n, d), Own(n.nodeId, d, h)));
    }
  }

  lemma Regroup(a: seq<Transfer>, b: seq<Transfer>, c: seq<Transfer>)
    ensures a + b + c == a + (b + c) && [] + c == c
  {
  }

  // ---------------------------------------------------------------------------------------------
  // One descriptor with and without the others

  lemma {:induction false} OwnTwice(nodeId: nat, d: nat, e: nat, h: seq<Incident>)
    ensures e == d ==> Own(nodeId, e, Own(nodeId, d, h)) == Own(nodeId, d, h)
    ensures e != d ==> Heard(Own(nodeId, e, Own(nodeId, d, h))) == []
  {
    if h != [] {
      hide Own, Relevant, DescriptorOf;
      var rest := Own(nodeId, d, h[1..]);
      OwnTwice(nodeId, d, e, h[1..]);
      OwnIs(nodeId, d, h);
      if Concerns(nodeId, d, h[0]) {
        OwnIs(nodeId, e, [h[0]] + rest);
        assert ([h[0]] + rest)[1..] == rest;
        HeardFirst(h[0], Own(nodeId, e, rest));
      }
    }
  }

  lemma {:induction false} OwnConcerns(nodeId: nat, d: nat, h: seq<Incident>)
    ensures forall i | 0 <= i < |Own(nodeId, d, h)| :: Concerns(nodeId, d, Own(nodeId, d, h)[i])
  {
    hide Relevant, DescriptorOf;
    if h != [] {
      OwnConcerns(nodeId, d, h[1..]);
    }
  }

  lemma {:induction false} UnheardSmooth(accept: Accept, slot: Slot, h: seq<Incident>)
    requires AllTailed(h) && Heard(h) == []
    ensures SlotSmooth(accept, slot, h)
    decreases |h|
  {
    hide Meet;
    if h != [] {
      TailedRest(h);
      HeardFirst(h[0], h[1..]);
      UnheardSmooth(accept, Meet(accept, slot, h[0]).slot, h[1..]);
    }
  }

  /** The history delivers for a descriptor what a history without all other frames delivers. */
  lemma AloneOrNot(accept: Accept, n: Node, h: seq<Incident>, descs: set<nat>, d: nat)
    requires Sound(n, descs) && Covers(descs, n.nodeId, h) && LeavesRoom(Capacity(n), descs, h)
    requires SmoothAlone(accept, n, h, descs)
    requires d in descs
    ensures LogOf(RunNode(accept, n, h).log, d) == LogOf(RunNode(accept, n, Own(n.nodeId, d, h)).log, d)
    ensures SlotOf(RunNode(accept, n, h), d) == SlotOf(RunNode(accept, n, Own(n.nodeId, d, h)), d)
  {
    hide Sound, Relevant, DescriptorOf, SlotOf, LogOf, Serve, ServeTrips, Handle, SlotAfter, SlotDelivers, SlotSmooth,
         Own, RunNode;
    NonInterference(accept, n, h, descs);
    var own := Own(n.nodeId, d, h);
    OwnConcerns(n.nodeId, d, h);
    forall e | e in descs ensures SlotSmooth(accept, SlotOf(n, e), Own(n.nodeId, e, own)) {
      OwnTwice(n.nodeId, d, e, h);
      if e != d {
        UnheardSmooth(accept, SlotOf(n, e), Own(n.nodeId, e, own));
      }
    }
    OwnTwice(n.nodeId, d, d, h);
    NonInterference(accept, n, own, descs);
  }

  // ---------------------------------------------------------------------------------------------
  // Streams of many senders

  /** The transfers of one descriptor, sent with consecutive transfer IDs from `firstId`. */
  datatype Stream = Stream(signature: bv64, firstId: bv8, transfers: seq<Sent>)

  predicate ConformingTo(accept: Accept, desc: nat, s: Stream) {
    s.firstId < 32 && ConformingStream(accept, desc, s.signature, s.firstId, s.transfers)
  }

  function Expected(accept: Accept, desc: nat, s: Stream): seq<Transfer>
    requires ConformingTo(accept, desc, s)
  {
    ConformingShape(accept, desc, s.signature, s.firstId, s.transfers);
    StreamTransfers(s.firstId, s.transfers)
  }

  /** The frames of each descriptor are those of its stream, in order; across descriptors they interleave at will, and
      with whatever else happens at the node. */
  ghost predicate Interleaves(accept: Accept, n: Node, h: seq<Incident>, streams: map<nat, Stream>) {
    && Covers(streams.Keys, n.nodeId, h) && Paced(h, 0)
    && forall d | d in streams ::
         var s := streams[d];
         && ConformingTo(accept, d, s) && ReadyForStream(SlotOf(n, d), d, s.firstId, s.transfers)
         && Heard(Own(n.nodeId, d, h)) == StreamArrivals(accept, d, s.signature, s.firstId, s.transfers)
  }

  /** Any interleaving of any number of conforming streams delivers every transfer of every stream, unchanged, once, and
      in the order of its stream, and trips no assertion; whenever stale states are cleaned up, and whatever is queued
      and sent in the meantime. */
  lemma InterleavedStreams(accept: Accept, n: Node, h: seq<Incident>, streams: map<nat, Stream>, descs: set<nat>)
    requires Sound(n, descs) && streams.Keys <= descs && LeavesRoom(Capacity(n), descs, h)
    requires Interleaves(accept, n, h, streams)
    ensures RunsSmoothly(accept, n, h)
    ensures forall d | d in streams ::
              && ConformingTo(accept, d, streams[d])
              && LogOf(RunNode(accept, n, h).log, d) == LogOf(n.log, d) + Expected(accept, d, streams[d])
  {
    hide Sound, Relevant, DescriptorOf, SlotOf, LogOf, Own, RunNode, Capacity, ConformingStream, ReadyForStream,
         StreamArrivals, SlotSmooth, SlotDelivers, SlotAfter, RunsSmoothly, Paced, Heard;
    forall d | d in descs ensures SlotSmooth(accept, SlotOf(n, d), Own(n.nodeId, d, h)) {
      if d in streams {
        StreamOfSlot(accept, n, h, streams, d);
      } else {
        NotOwned(n.nodeId, d, h, streams.Keys);
        UnheardSmooth(accept, SlotOf(n, d), Own(n.nodeId, d, h));
      }
    }
    NonInterference(accept, n, h, descs);
    forall d | d in streams
      ensures LogOf(RunNode(accept, n, h).log, d) == LogOf(n.log, d) + Expected(accept, d, streams[d])
    {
      StreamOfSlot(accept, n, h, streams, d);
    }
  }

  lemma StreamOfSlot(accept: Accept, n: Node, h: seq<Incident>, streams: map<nat, Stream>, d: nat)
    requires Interleaves(accept, n, h, streams) && d in streams
    ensures SlotSmooth(accept, SlotOf(n, d), Own(n.nodeId, d, h))
    ensures SlotDelivers(accept, SlotOf(n, d), Own(n.nodeId, d, h)) == Expected(accept, d, streams[d])
  {
    hide SlotOf, Own, ConformingStream, ReadyForStream, StreamArrivals, SlotSmooth, SlotDelivers, Paced, Heard;
    var s := streams[d];
    OwnPaced(n.nodeId, d, h, 0);
    StreamUpkeep(accept, SlotOf(n, d), d, s.signature, s.firstId, s.transfers, Own(n.nodeId, d, h), 0);
  }

  lemma {:induction false} OwnPaced(nodeId: nat, d: nat, h: seq<Incident>, clock: nat)
    requires Paced(h, clock)
    ensures Paced(Own(nodeId, d, h), clock)
    decreases |h|
  {
    if h != [] {
      hide Own, Concerns;
      OwnIs(nodeId, d, h);
      PacedFirst(h[0], Own(nodeId, d, h[1..]), clock, 0);
      OwnPaced(nodeId, d, h[1..], ClockAfter(h[0], clock));
      PacedEarlier(Own(nodeId, d, h[1..]), ClockAfter(h[0], clock), clock);
    }
  }

  lemma {:induction false} PacedEarlier(h: seq<Incident>, clock: nat, earlier: nat)
    requires Paced(h, clock) && earlier <= clock
    ensures Paced(h, earlier)
    decreases |h|
  {
    if h != [] && h[0].Transmission? {
      PacedEarlier(h[1..], clock, earlier);
    }
  }

  lemma {:induction false} NotOwned(nodeId: nat, d: nat, h: seq<Incident>, descs: set<nat>)
    requires Covers(descs, nodeId, h) && d !in descs
    ensures Heard(Own(nodeId, d, h)) == []
  {
    if h != [] {
      hide Own, Relevant, DescriptorOf;
      NotOwned(nodeId, d, h[1..], descs);
      OwnIs(nodeId, d, h);
      HeardFirst(h[0], Own(nodeId, d, h[1..]));
    }
  }
}

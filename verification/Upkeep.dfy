/** A node's life between frames: the periodic cleanup of stale reception states, and the TX queue that grows and
    shrinks. */
module Upkeep {
  import opened CanFrames
  import opened Reception
  import opened Delivery
  import opened Transmission

  /** What happens to the instance. Cleanup: the node runs its periodic task. Transmission: frames were queued or
      sent. */
  datatype Incident = Received(arrival: Arrival) | Cleanup(now: nat) | Transmission(tx: seq<Frame>)

  /** The frames received. */
  function Heard(h: seq<Incident>): seq<Arrival> {
    if h == [] then [] else (if h[0].Received? then [h[0].arrival] else []) + Heard(h[1..])
  }

  predicate AllTailed(h: seq<Incident>) {
    forall i | 0 <= i < |h| && h[i].Received? :: h[i].arrival.frame.data != []
  }

  /** What happens, happens in order of time, from `clock` on. */
  predicate Paced(h: seq<Incident>, clock: nat)
    decreases |h|
  {
    h != [] ==>
      match h[0]
      case Received(a) => clock <= a.ts < TIME_LIMIT && Paced(h[1..], a.ts)
      case Cleanup(now) => clock <= now < TIME_LIMIT && Paced(h[1..], now)
      case Transmission(_) => Paced(h[1..], clock)
  }

  predicate UpTo(h: seq<Incident>, limit: nat) {
    forall i | 0 <= i < |h| :: (h[i].Received? ==> h[i].arrival.ts <= limit) && (h[i].Cleanup? ==> h[i].now <= limit)
  }

  // ---------------------------------------------------------------------------------------------
  // One slot

  function CleanedSlot(slot: Slot, now: nat): Slot {
    if slot.Some? && Stale(slot.value, now) then None else slot
  }

  function Meet(accept: Accept, slot: Slot, e: Incident): Served
    requires e.Received? ==> e.arrival.frame.data != []
  {
    match e
    case Received(a) => Serve(accept, slot, a)
    case Cleanup(now) => Served(CleanedSlot(slot, now), None)
    case Transmission(_) => Served(slot, None)
  }

  predicate MeetTrips(accept: Accept, slot: Slot, e: Incident)
    requires e.Received? ==> e.arrival.frame.data != []
  {
    e.Received? && ServeTrips(accept, slot, e.arrival)
  }

  function SlotAfter(accept: Accept, slot: Slot, h: seq<Incident>): Slot
    requires AllTailed(h)
    decreases |h|
  {
    if h == [] then slot else SlotAfter(accept, Meet(accept, slot, h[0]).slot, h[1..])
  }

  function SlotDelivers(accept: Accept, slot: Slot, h: seq<Incident>): seq<Transfer>
    requires AllTailed(h)
    decreases |h|
  {
    if h == [] then []
    else Listed(Meet(accept, slot, h[0]).delivered) + SlotDelivers(accept, Meet(accept, slot, h[0]).slot, h[1..])
  }

  predicate SlotSmooth(accept: Accept, slot: Slot, h: seq<Incident>)
    requires AllTailed(h)
    decreases |h|
  {
    h != [] ==> !MeetTrips(accept, slot, h[0]) && SlotSmooth(accept, Meet(accept, slot, h[0]).slot, h[1..])
  }

  lemma {:induction false} HistoriesCompose(accept: Accept, slot: Slot, a: seq<Incident>, b: seq<Incident>)
    requires AllTailed(a) && AllTailed(b)
    ensures AllTailed(a + b)
    ensures SlotAfter(accept, slot, a + b) == SlotAfter(accept, SlotAfter(accept, slot, a), b)
    ensures SlotDelivers(accept, slot, a + b) ==
            SlotDelivers(accept, slot, a) + SlotDelivers(accept, SlotAfter(accept, slot, a), b)
    ensures SlotSmooth(accept, slot, a + b) ==
            (SlotSmooth(accept, slot, a) && SlotSmooth(accept, SlotAfter(accept, slot, a), b))
    decreases |a|
  {
    hide Meet, MeetTrips, Listed;
    if a == [] {
      assert a + b == b;
    } else {
      HistoriesCompose(accept, Meet(accept, slot, a[0]).slot, a[1..], b);
      assert (a + b)[1..] == a[1..] + b;
    }
  }

  lemma MeetFirst(accept: Accept, slot: Slot, e: Incident, rest: seq<Incident>)
    requires (e.Received? ==> e.arrival.frame.data != []) && AllTailed(rest)
    ensures AllTailed([e] + rest)
    ensures SlotAfter(accept, slot, [e] + rest) == SlotAfter(accept, Meet(accept, slot, e).slot, rest)
    ensures SlotDelivers(accept, slot, [e] + rest) ==
            Listed(Meet(accept, slot, e).delivered) + SlotDelivers(accept, Meet(accept, slot, e).slot, rest)
    ensures SlotSmooth(accept, slot, [e] + rest) <==>
            !MeetTrips(accept, slot, e) && SlotSmooth(accept, Meet(accept, slot, e).slot, rest)
    ensures Heard([e] + rest) == (if e.Received? then [e.arrival] else []) + Heard(rest)
  {
    hide Meet, MeetTrips, Listed;
    assert ([e] + rest)[1..] == rest;
  }

  lemma TailedRest(h: seq<Incident>)
    requires AllTailed(h) && h != []
    ensures AllTailed(h[1..]) && h == [h[0]] + h[1..] && (h[0].Received? ==> h[0].arrival.frame.data != [])
  {
    forall i | 0 <= i < |h[1..]| && h[1..][i].Received? ensures h[1..][i].arrival.frame.data != [] {
      assert h[1..][i] == h[i + 1];
    }
  }

  // ---------------------------------------------------------------------------------------------
  // During a transfer, cleanups do nothing

  /** A state keeps its timestamp, or gets that of the frame. */
  lemma ServeStamps(accept: Accept, s: RxState, a: Arrival)
    requires a.frame.data != []
    ensures var o := Serve(accept, Some(s), a);
            o.slot.Some? && (o.slot.value.timestamp == s.timestamp || o.slot.value.timestamp == a.ts)
  {
    hide Advance, HeaderOf, Signature, Crc.AddSignature;
    if IsStart(Tail(a.frame)) && Signature(accept, a.frame).Some? {
      AdvanceStamps(OpenSlot(Some(s), DescriptorOf(a.frame.id), Signature(accept, a.frame).value), a.frame, a.ts,
                    AMPLE);
    } else {
      AdvanceStamps(s, a.frame, a.ts, AMPLE);
    }
  }

  lemma AdvanceStamps(s: RxState, f: Frame, ts: nat, free: nat)
    requires f.data != []
    ensures var t := Advance(s, f, ts, free).state.timestamp; t == s.timestamp || t == ts
  {
    hide IsStart, IsEnd, Toggle, TransferIdOf, Tail, Body, NeedRestart, HeaderOf, Crc.Add, Stored, BlocksAfter, NextId;
  }

  lemma NotStale(s: RxState, now: nat, since: nat)
    requires since <= s.timestamp <= now < TIME_LIMIT && now <= since + TRANSFER_TIMEOUT
    ensures !Stale(s, now)
  {
  }

  /** As long as a state is not older than the timeout, it is served as if there were no cleanups. */
  lemma {:induction false} Window(accept: Accept, s: RxState, h: seq<Incident>, since: nat, clock: nat)
    requires AllTailed(h) && Paced(h, clock) && UpTo(h, since + TRANSFER_TIMEOUT) && since <= s.timestamp <= clock
    ensures var run := Heard(h);
            && Tailed(run) && SlotAfter(accept, Some(s), h) == After(accept, Some(s), run)
            && SlotDelivers(accept, Some(s), h) == Delivered(accept, Some(s), run)
            && (SlotSmooth(accept, Some(s), h) <==> Smooth(accept, Some(s), run))
    decreases |h|
  {
    hide Serve, ServeTrips, Stale;
    if h != [] {
      var e, rest := h[0], h[1..];
      TailedRest(h);
      MeetFirst(accept, Some(s), e, rest);
      match e {
        case Received(a) =>
          ServeStamps(accept, s, a);
          var next := Serve(accept, Some(s), a).slot.value;
          Window(accept, next, rest, since, a.ts);
          assert ([a] + Heard(rest))[1..] == Heard(rest);
        case Cleanup(now) =>
          NotStale(s, now, since);
          Window(accept, s, rest, since, now);
          assert Heard(h) == Heard(rest);
        case Transmission(_) =>
          Window(accept, s, rest, since, clock);
          assert Heard(h) == Heard(rest);
      }
    }
  }

  // ---------------------------------------------------------------------------------------------
  // Cutting a history

  /** How much of the history it takes to hear n frames. */
  function Cut(h: seq<Incident>, n: nat): (k: nat)
    requires n <= |Heard(h)|
    ensures k <= |h|
  {
    if n == 0 then 0 else 1 + Cut(h[1..], if h[0].Received? then n - 1 else n)
  }

  /** When the time has come that the first of the incidents leaves. */
  function ClockAfter(e: Incident, clock: nat): nat {
    match e case Received(a) => a.ts case Cleanup(now) => now case Transmission(_) => clock
  }

  predicate Passes(e: Incident, clock: nat) {
    !e.Transmission? ==> clock <= ClockAfter(e, clock) < TIME_LIMIT
  }

  lemma CutIs(h: seq<Incident>, n: nat)
    requires 0 < n <= |Heard(h)|
    ensures h != []
    ensures var m := if h[0].Received? then n - 1 else n;
            && m <= |Heard(h[1..])| && Cut(h, n) == 1 + Cut(h[1..], m)
            && h[..Cut(h, n)] == [h[0]] + h[1..][..Cut(h[1..], m)] && h[Cut(h, n)..] == h[1..][Cut(h[1..], m)..]
            && (m > 0 ==> Heard(h)[n - 1] == Heard(h[1..])[m - 1])
            && (m == 0 ==> h[0].Received? && Heard(h)[n - 1] == h[0].arrival)
  {
  }

  lemma {:induction false} CutHeard(h: seq<Incident>, n: nat)
    requires n <= |Heard(h)|
    ensures Heard(h[..Cut(h, n)]) == Heard(h)[..n] && Heard(h[Cut(h, n)..]) == Heard(h)[n..]
    decreases |h|
  {
    if n == 0 {
      assert h[..0] == [] && h[0..] == h;
    } else {
      hide Cut;
      CutIs(h, n);
      CutHeard(h[1..], if h[0].Received? then n - 1 else n);
      HeardFirst(h[0], h[1..][..Cut(h[1..], if h[0].Received? then n - 1 else n)]);
    }
  }

  lemma HeardFirst(e: Incident, rest: seq<Incident>)
    ensures Heard([e] + rest) == if e.Received? then [e.arrival] + Heard(rest) else Heard(rest)
  {
    assert ([e] + rest)[1..] == rest;
  }

  /** The first part ends with its last frame, and the rest goes on from there. */
  lemma {:induction false} CutTimes(h: seq<Incident>, n: nat, clock: nat)
    requires 0 < n <= |Heard(h)| && Paced(h, clock)
    ensures var k, last := Cut(h, n), Heard(h)[n - 1].ts;
            k > 0 && UpTo(h[..k], last) && clock <= last && Paced(h[..k], clock) && Paced(h[k..], last)
    decreases |h|
  {
    hide Cut, Heard;
    CutIs(h, n);
    var e, rest, last := h[0], h[1..], Heard(h)[n - 1].ts;
    var m := if e.Received? then n - 1 else n;
    if m == 0 {
      CutNothing(rest);
    } else {
      CutTimes(rest, m, ClockAfter(e, clock));
    }
    PacedFirst(e, rest[..Cut(rest, m)], clock, last);
  }

  lemma CutNothing(h: seq<Incident>)
    ensures Cut(h, 0) == 0 && h[..0] == [] && h[0..] == h
  {
  }

  lemma PacedFirst(e: Incident, rest: seq<Incident>, clock: nat, limit: nat)
    ensures Paced([e] + rest, clock) <==> Passes(e, clock) && Paced(rest, ClockAfter(e, clock))
    ensures UpTo(rest, limit) && (!e.Transmission? ==> ClockAfter(e, clock) <= limit) ==> UpTo([e] + rest, limit)
  {
    assert ([e] + rest)[1..] == rest;
  }

  // ---------------------------------------------------------------------------------------------
  // Streams

  /** The first frame of a transfer the slot is ready for sets the state's timestamp. */
  lemma StartStamps(accept: Accept, slot: Slot, desc: nat, signature: bv64, transferId: bv8, s: Sent)
    requires transferId < 32 && Conforming(accept, desc, signature, transferId, s)
    requires (slot.Some? ==> slot.value.desc == desc) && s.times != [] && Ready(slot, transferId, s.times[0])
    ensures var run := ArrivalsOf(signature, transferId, s);
            && run != [] && run[0].frame.data != []
            && var o := Serve(accept, slot, run[0]); o.slot.Some? && o.slot.value.timestamp == run[0].ts == s.times[0]
  {
    hide Serve, ServeTrips, Clean, Holding, HeaderOf, NextId, Crc.Add, FrameFrom, Elapsed, Crc.AddSignature, Ready,
         FramesFrom, Timely;
    var run, crc := ArrivalsOf(signature, transferId, s), CrcFor(signature, s.payload);
    FramesUnfold(s.id, transferId, crc, s.payload);
    FrameId(s.id, transferId, crc, s.payload);
    AcceptedIs(accept, s.id, run[0].frame);
    if |s.payload| < 8 {
      SingleStep(accept, slot, run[0], s.id, transferId, signature, s.payload);
    } else {
      FirstStep(accept, slot, run[0], s.id, transferId, crc, signature, s.payload);
    }
  }

  /** One transfer, with whatever happens between its frames. */
  lemma TransferWindow(accept: Accept, slot: Slot, desc: nat, signature: bv64, transferId: bv8, s: Sent,
                       h: seq<Incident>, clock: nat)
    requires transferId < 32 && Conforming(accept, desc, signature, transferId, s)
    requires (slot.Some? ==> slot.value.desc == desc) && s.times != [] && Ready(slot, transferId, s.times[0])
    requires AllTailed(h) && Paced(h, clock) && h != [] && h[0].Received?
    requires Heard(h) == ArrivalsOf(signature, transferId, s)
    requires UpTo(h, s.times[|s.times| - 1])
    ensures var run := ArrivalsOf(signature, transferId, s);
            && Tailed(run) && SlotAfter(accept, slot, h) == After(accept, slot, run)
            && SlotDelivers(accept, slot, h) == Delivered(accept, slot, run)
            && (SlotSmooth(accept, slot, h) <==> Smooth(accept, slot, run))
  {
    hide Serve, ServeTrips, Ready, SlotAfter, SlotDelivers, SlotSmooth, After, Delivered, Smooth, ArrivalsOf, Heard,
         UpTo, TxFrames, CrcFor, Timely, Accepted, DescriptorOf;
    var run := ArrivalsOf(signature, transferId, s);
    StartStamps(accept, slot, desc, signature, transferId, s);
    TailedRest(h);
    HeardFirst(h[0], h[1..]);
    MeetFirst(accept, slot, h[0], h[1..]);
    PacedFirst(h[0], h[1..], clock, 0);
    WithinTimeout(accept, desc, signature, transferId, s);
    UpToRest(h, s.times[|s.times| - 1], s.times[0] + TRANSFER_TIMEOUT);
    assert run[0] == h[0].arrival && run[1..] == Heard(h[1..]);
    Window(accept, Serve(accept, slot, run[0]).slot.value, h[1..], run[0].ts, run[0].ts);
    RunFirst(accept, slot, run[0], run[1..]);
    assert run == [run[0]] + run[1..];
  }

  lemma UpToRest(h: seq<Incident>, limit: nat, more: nat)
    requires UpTo(h, limit) && limit <= more && h != []
    ensures UpTo(h[1..], more)
  {
    forall i | 0 <= i < |h[1..]|
      ensures (h[1..][i].Received? ==> h[1..][i].arrival.ts <= more) && (h[1..][i].Cleanup? ==> h[1..][i].now <= more)
    {
      assert h[1..][i] == h[i + 1];
    }
  }

  lemma WithinTimeout(accept: Accept, desc: nat, signature: bv64, transferId: bv8, s: Sent)
    requires Conforming(accept, desc, signature, transferId, s) && s.times != []
    ensures s.times[|s.times| - 1] <= s.times[0] + TRANSFER_TIMEOUT
  {
    hide TxFrames, CrcFor, Accepted, DescriptorOf;
  }

  /** The first transfer of a stream that begins now, and what is left of the history after it. */
  lemma NextTransfer(accept: Accept, slot: Slot, desc: nat, signature: bv64, transferId: bv8, stream: seq<Sent>,
                     h: seq<Incident>, clock: nat)
    requires stream != [] && transferId < 32 && ConformingStream(accept, desc, signature, transferId, stream)
    requires ReadyForStream(slot, desc, transferId, stream) && stream[0].id < EXT_ID_LIMIT && stream[0].times != []
    requires AllTailed(h) && Paced(h, clock) && h != [] && h[0].Received?
    requires Heard(h) == StreamArrivals(accept, desc, signature, transferId, stream)
    ensures var s, n := stream[0], |ArrivalsOf(signature, transferId, stream[0])|;
            && 0 < n <= |Heard(h)|
            && var k := Cut(h, n);
               && 0 < k && AllTailed(h[..k]) && AllTailed(h[k..]) && Paced(h[k..], Heard(h)[n - 1].ts)
               && Heard(h[k..]) == StreamArrivals(accept, desc, signature, NextId(transferId), stream[1..])
               && SlotSmooth(accept, slot, h[..k])
               && SlotDelivers(accept, slot, h[..k]) ==
                  [Transfer(s.times[|s.times| - 1], s.payload, HeaderOf(s.id + FRAME_EFF), transferId)]
               && var next := SlotAfter(accept, slot, h[..k]);
                  next.Some? && next.value.desc == desc && Clean(next.value, NextId(transferId))
  {
    hide Serve, ServeTrips, HeaderOf, NextId, Elapsed, TxFrames, CrcFor, Timely, Ready, Accepted, MakeDescriptor, Paced,
         Heard, Cut, UpTo, SlotAfter, SlotDelivers, SlotSmooth, After, Delivered, Smooth, Clean;
    var s := stream[0];
    var run := ArrivalsOf(signature, transferId, s);
    var n := |run|;
    RoundTrip(accept, slot, s.id, transferId, signature, s.payload, s.times);
    assert Heard(h)[..n] == run;
    CutHeard(h, n);
    CutTimes(h, n, clock);
    var k := Cut(h, n);
    TailedParts(h, k);
    TransferWindow(accept, slot, desc, signature, transferId, s, h[..k], clock);
  }

  lemma TailedParts(h: seq<Incident>, k: nat)
    requires AllTailed(h) && k <= |h|
    ensures AllTailed(h[..k]) && AllTailed(h[k..])
  {
    forall i | 0 <= i < |h[k..]| && h[k..][i].Received? ensures h[k..][i].arrival.frame.data != [] {
      assert h[k..][i] == h[i + k];
    }
  }

  /** Cleanups at any times do not hurt a stream: every transfer is delivered unchanged, in order, and once. */
  lemma {:induction false} StreamUpkeep(accept: Accept, slot: Slot, desc: nat, signature: bv64, transferId: bv8,
                                        stream: seq<Sent>,
                                        h: seq<Incident>, clock: nat)
    requires transferId < 32 && ConformingStream(accept, desc, signature, transferId, stream)
    requires ReadyForStream(slot, desc, transferId, stream)
    requires AllTailed(h) && Paced(h, clock) && Heard(h) == StreamArrivals(accept, desc, signature, transferId, stream)
    ensures forall i | 0 <= i < |stream| :: stream[i].id < EXT_ID_LIMIT && stream[i].times != []
    ensures SlotSmooth(accept, slot, h) && SlotDelivers(accept, slot, h) == StreamTransfers(transferId, stream)
    decreases |h|
  {
    hide Serve, ServeTrips, HeaderOf, NextId, Elapsed, TxFrames, CrcFor, Timely, Ready, Accepted, MakeDescriptor, Paced,
         Heard, AllTailed, Cut, UpTo, Meet, MeetTrips, SlotAfter, SlotDelivers, SlotSmooth;
    ConformingShape(accept, desc, signature, transferId, stream);
    if h == [] {
      NothingMet(accept, slot);
      SomethingSent(accept, desc, signature, transferId, stream);
    } else {
      var e, rest := h[0], h[1..];
      TailedRest(h);
      HeardFirst(e, rest);
      MeetFirst(accept, slot, e, rest);
      PacedFirst(e, rest, clock, 0);
      if !e.Received? {
        var next := Meet(accept, slot, e).slot;
        StillReady(accept, slot, desc, transferId, stream, e);
        assert [] + SlotDelivers(accept, next, rest) == SlotDelivers(accept, next, rest);
        StreamUpkeep(accept, next, desc, signature, transferId, stream, rest, ClockAfter(e, clock));
      } else {
        assert stream != [];
        NextTransfer(accept, slot, desc, signature, transferId, stream, h, clock);
        var s, n := stream[0], |ArrivalsOf(signature, transferId, stream[0])|;
        var k := Cut(h, n);
        var last := Heard(h)[n - 1].ts;
        var next := SlotAfter(accept, slot, h[..k]);
        NextIdFits(transferId);
        CleanIsReady(next, NextId(transferId));
        StreamUpkeep(accept, next, desc, signature, NextId(transferId), stream[1..], h[k..], last);
        assert h == h[..k] + h[k..];
        HistoriesCompose(accept, slot, h[..k], h[k..]);
      }
    }
  }

  /** A slot that is ready stays so if its state is removed. */
  lemma StillReady(accept: Accept, slot: Slot, desc: nat, transferId: bv8, stream: seq<Sent>, e: Incident)
    requires ReadyForStream(slot, desc, transferId, stream) && !e.Received?
    ensures ReadyForStream(Meet(accept, slot, e).slot, desc, transferId, stream)
    ensures Listed(Meet(accept, slot, e).delivered) == [] && !MeetTrips(accept, slot, e)
  {
    hide Stale;
  }

  lemma NothingMet(accept: Accept, slot: Slot)
    ensures Heard([]) == [] && SlotSmooth(accept, slot, []) && SlotDelivers(accept, slot, []) == []
  {
  }

  lemma SomethingSent(accept: Accept, desc: nat, signature: bv64, transferId: bv8, stream: seq<Sent>)
    requires ConformingStream(accept, desc, signature, transferId, stream)
    requires StreamArrivals(accept, desc, signature, transferId, stream) == []
    ensures stream == []
  {
    hide TxFrames, CrcFor, Timely, Accepted, DescriptorOf;
    if stream != [] {
      FrameId(stream[0].id, transferId, CrcFor(signature, stream[0].payload), stream[0].payload);
    }
  }
}

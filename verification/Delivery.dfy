/** What a receiver makes of the frames of one transfer descriptor, and the round trip of whole transfers. */
module Delivery {
  import opened CanFrames
  import opened Reception
  import opened Transmission
  import Crc = TransferCrc

  datatype Arrival = Arrival(frame: Frame, ts: nat)

  /** The reception state of one descriptor, if there is one. */
  type Slot = Option<RxState>

  datatype Served = Served(slot: Slot, delivered: Option<Transfer>)

  /** Blocks that suffice for any payload a state can hold. */
  const AMPLE := 37

  function OpenSlot(slot: Slot, desc: nat, signature: bv64): (s: RxState)
    ensures slot.Some? ==> s.desc == slot.value.desc
    ensures slot.None? ==> s.desc == desc
  {
    (if slot.Some? then slot.value else NewState(desc)).(calculatedCrc := Crc.AddSignature(0xFFFF, signature))
  }

  function ServedBy(o: Outcome): Served {
    Served(Some(o.state), o.delivered)
  }

  /** One frame of the slot's descriptor, with blocks enough. */
  function Serve(accept: Accept, slot: Slot, a: Arrival): Served
    requires a.frame.data != []
  {
    var f := a.frame;
    if IsStart(Tail(f)) then
      match Signature(accept, f)
      case None => Served(slot, None)
      case Some(signature) => ServedBy(Advance(OpenSlot(slot, DescriptorOf(f.id), signature), f, a.ts, AMPLE))
    else
      match slot
      case None => Served(slot, None)
      case Some(s) => ServedBy(Advance(s, f, a.ts, AMPLE))
  }

  predicate ServeTrips(accept: Accept, slot: Slot, a: Arrival)
    requires a.frame.data != []
  {
    && (IsStart(Tail(a.frame)) ==> Signature(accept, a.frame).Some?)
    && slot.Some? && Trips(slot.value, a.frame, a.ts)
  }

  predicate Tailed(run: seq<Arrival>) {
    forall i | 0 <= i < |run| :: run[i].frame.data != []
  }

  /** The slot after a run of frames. */
  function After(accept: Accept, slot: Slot, run: seq<Arrival>): Slot
    requires Tailed(run)
    decreases |run|
  {
    if run == [] then slot else After(accept, Serve(accept, slot, run[0]).slot, run[1..])
  }

  /** The transfers a run of frames delivers. */
  function Delivered(accept: Accept, slot: Slot, run: seq<Arrival>): seq<Transfer>
    requires Tailed(run)
    decreases |run|
  {
    if run == [] then []
    else Listed(Serve(accept, slot, run[0]).delivered) + Delivered(accept, Serve(accept, slot, run[0]).slot, run[1..])
  }

  function Listed(t: Option<Transfer>): seq<Transfer> {
    if t.Some? then [t.value] else []
  }

  /** No frame of the run trips an assertion. */
  predicate Smooth(accept: Accept, slot: Slot, run: seq<Arrival>)
    requires Tailed(run)
    decreases |run|
  {
    run != [] ==> !ServeTrips(accept, slot, run[0]) && Smooth(accept, Serve(accept, slot, run[0]).slot, run[1..])
  }

  lemma {:induction false} RunsCompose(accept: Accept, slot: Slot, a: seq<Arrival>, b: seq<Arrival>)
    requires Tailed(a) && Tailed(b)
    ensures Tailed(a + b)
    ensures After(accept, slot, a + b) == After(accept, After(accept, slot, a), b)
    ensures Delivered(accept, slot, a + b) == Delivered(accept, slot, a) + Delivered(accept, After(accept, slot, a), b)
    ensures Smooth(accept, slot, a + b) == (Smooth(accept, slot, a) && Smooth(accept, After(accept, slot, a), b))
    decreases |a|
  {
    hide Serve, ServeTrips, Listed;
    if a == [] {
      assert a + b == b;
    } else {
      var next := Serve(accept, slot, a[0]).slot;
      RunsCompose(accept, next, a[1..], b);
      assert (a + b)[1..] == a[1..] + b;
    }
  }

  // ---------------------------------------------------------------------------------------------
  // The frames of a transfer

  function Arrivals(frames: seq<Frame>, times: seq<nat>): (run: seq<Arrival>)
    requires |times| == |frames|
    ensures |run| == |frames|
  {
    seq(|frames|, i requires 0 <= i < |frames| => Arrival(frames[i], times[i]))
  }

  /** Payloads whose part before the last frame fits the receiver's 10-bit length counter. */
  const PAYLOAD_LIMIT := 1027

  /** Positive and monotone, and the whole transfer within the timeout. */
  predicate Timely(times: seq<nat>) {
    && (forall i | 0 <= i < |times| :: 0 < times[i] < TIME_LIMIT)
    && (forall i, j | 0 <= i <= j < |times| :: times[i] <= times[j])
    && (times != [] ==> times[|times| - 1] - times[0] <= TRANSFER_TIMEOUT)
  }

  predicate Clean(s: RxState, transferId: bv8) {
    s.payload == [] && s.blocks == 0 && !s.toggle && s.transferId == transferId
  }

  /** A transfer that starts now will be received: the state is new, stale, out of step, or waits for just this one. */
  predicate Ready(slot: Slot, transferId: bv8, ts: nat) {
    slot.Some? ==>
      var s := slot.value;
      || s.timestamp == 0 || Elapsed(ts, s.timestamp) > TRANSFER_TIMEOUT
         || ForwardDistance(s.transferId, transferId) > 1
      || Clean(s, transferId)
  }

  lemma FrameParts(id: nat, transferId: bv8, crc: bv16, payload: seq<bv8>, index: nat, toggle: bool)
    requires id < EXT_ID_LIMIT && index < |payload|
    ensures var f := FrameFrom(id, transferId, crc, payload, index, toggle); var end := ChunkEnd(index, |payload|);
            && f.data != [] && f.id == id + FRAME_EFF
            && Tail(f) == TailByte(index == 0 && end < |payload|, end == |payload|, toggle, transferId)
            && Body(f) == (if index == 0 then CrcBytes(crc) else []) + payload[index..end]
  {
    hide TailByte, CrcBytes;
    var f := FrameFrom(id, transferId, crc, payload, index, toggle);
    assert f.data[..|f.data| - 1] ==
           (if index == 0 then CrcBytes(crc) else []) + payload[index..ChunkEnd(index, |payload|)];
  }

  lemma CrcOnWire(crc: bv16, f: Frame, rest: seq<bv8>)
    requires |f.data| >= 2 && CrcBytes(crc) + rest == f.data
    ensures FrameCrc(f) == crc
  {
    assert f.data[0] == CrcBytes(crc)[0] && f.data[1] == CrcBytes(crc)[1];
    CrcRejoined(crc);
  }

  lemma CrcRejoined(crc: bv16)
    ensures (CrcBytes(crc)[0] as bv16) | ((CrcBytes(crc)[1] as bv16) << 8) == crc
  {
  }

  lemma AfterBound(n: nat, count: nat)
    requires n + count < LENGTH_LIMIT
    ensures BlocksAfter(n, count) <= AMPLE
  {
  }

  /** After a first frame of 5 and middle frames of 7 bytes no payload fills its blocks exactly. */
  lemma MiddleBlocks(index: nat)
    requires index % 7 == 5 && index >= 5
    ensures BlocksAfter(index, 7) == BlocksFor(index + 7)
    ensures BlocksFor(index) > 0 ==> index != HEAD_SIZE + BLOCK_SIZE * BlocksFor(index)
    ensures index < LENGTH_LIMIT ==> BlocksFor(index) <= AMPLE
  {
  }

  /** The state has received the first `index` bytes of a transfer. */
  predicate Holding(s: RxState, id: nat, transferId: bv8, crc: bv16, seed: bv16, payload: seq<bv8>, index: nat,
                    toggle: bool)
    requires id < EXT_ID_LIMIT && index <= |payload|
  {
    && s.desc == DescriptorOf(id + FRAME_EFF) && s.payload == payload[..index] && s.blocks == BlocksFor(index)
    && s.toggle == toggle && s.transferId == transferId
    && s.payloadCrc == crc && s.calculatedCrc == Crc.Add(seed, payload[..index])
  }

  lemma NoRestart(s: RxState, tail: bv8, ts: nat)
    requires s.timestamp > 0 && Elapsed(ts, s.timestamp) <= TRANSFER_TIMEOUT && !IsStart(tail)
    ensures !NeedRestart(s, tail, ts) && Current(s, tail, ts) == s
  {
  }

  lemma MiddleStep(accept: Accept, s: RxState, a: Arrival, id: nat, transferId: bv8, crc: bv16, seed: bv16,
                   payload: seq<bv8>, index: nat, toggle: bool)
    requires id < EXT_ID_LIMIT && index % 7 == 5 && index + 7 < |payload| && index + 7 < LENGTH_LIMIT && transferId < 32
    requires Holding(s, id, transferId, crc, seed, payload, index, toggle)
    requires a.frame == FrameFrom(id, transferId, crc, payload, index, toggle)
    requires s.timestamp > 0 && Elapsed(a.ts, s.timestamp) <= TRANSFER_TIMEOUT
    ensures a.frame.data != [] && !ServeTrips(accept, Some(s), a)
    ensures var o := Serve(accept, Some(s), a);
            && o.delivered.None? && o.slot.Some? && o.slot.value.timestamp == s.timestamp
            && Holding(o.slot.value, id, transferId, crc, seed, payload, index + 7, !toggle)
  {
    hide IsStart, IsEnd, Toggle, TransferIdOf, Tail, Body, TailByte, FrameFrom, Crc.Add, Elapsed, NeedRestart, Current,
         BlocksFor, BlocksAfter, DescriptorOf;
    FrameParts(id, transferId, crc, payload, index, toggle);
    TailByteFields(false, false, toggle, transferId);
    NoRestart(s, Tail(a.frame), a.ts);
    MiddleBlocks(index);
    MiddleBlocks(index + 7);
    Crc.AddConcat(seed, payload[..index], payload[index..index + 7]);
    assert payload[..index] + payload[index..index + 7] == payload[..index + 7];
    assert Stored(a.frame) == payload[index..index + 7];
  }

  lemma LastStep(accept: Accept, s: RxState, a: Arrival, id: nat, transferId: bv8, crc: bv16, seed: bv16,
                 payload: seq<bv8>, index: nat, toggle: bool)
    requires id < EXT_ID_LIMIT && index % 7 == 5 && index < |payload| <= index + 7 && transferId < 32
    requires Holding(s, id, transferId, crc, seed, payload, index, toggle) && crc == Crc.Add(seed, payload)
    requires a.frame == FrameFrom(id, transferId, crc, payload, index, toggle)
    requires s.timestamp > 0 && Elapsed(a.ts, s.timestamp) <= TRANSFER_TIMEOUT
    ensures a.frame.data != [] && !ServeTrips(accept, Some(s), a)
    ensures var o := Serve(accept, Some(s), a);
            && o.delivered == Some(Transfer(a.ts, payload, HeaderOf(id + FRAME_EFF), transferId))
            && o.slot.Some? && o.slot.value.timestamp == s.timestamp && o.slot.value.desc == s.desc
            && Clean(o.slot.value, NextId(transferId))
  {
    hide IsStart, IsEnd, Toggle, TransferIdOf, Tail, Body, TailByte, FrameFrom, Crc.Add, Elapsed, NeedRestart, Current,
         BlocksFor, BlocksAfter, DescriptorOf, HeaderOf, NextId;
    FrameParts(id, transferId, crc, payload, index, toggle);
    TailByteFields(false, true, toggle, transferId);
    NoRestart(s, Tail(a.frame), a.ts);
    MiddleBlocks(index);
    Crc.AddConcat(seed, payload[..index], payload[index..|payload|]);
    assert payload[..index] + payload[index..|payload|] == payload;
    assert Body(a.frame) == payload[index..|payload|];
  }

  /** A start frame of a transfer that the slot is ready for meets a cleared state with the right transfer ID. */
  lemma ReadyCurrent(s: RxState, tail: bv8, transferId: bv8, ts: nat)
    requires Ready(Some(s), transferId, ts) && IsStart(tail) && TransferIdOf(tail) == transferId
    ensures Current(s, tail, ts) == Cleared(s).(transferId := transferId, toggle := false)
  {
    hide IsStart, TransferIdOf, ForwardDistance, Elapsed;
  }

  lemma OpenReady(slot: Slot, desc: nat, signature: bv64, transferId: bv8, ts: nat)
    requires Ready(slot, transferId, ts)
    ensures Ready(Some(OpenSlot(slot, desc, signature)), transferId, ts)
  {
  }

  /** The slot belongs to the identifier's descriptor. */
  predicate SlotFor(slot: Slot, id: Word) {
    slot.Some? ==> slot.value.desc == DescriptorOf(id)
  }

  lemma FirstStep(accept: Accept, slot: Slot, a: Arrival, id: nat, transferId: bv8, crc: bv16, signature: bv64,
                  payload: seq<bv8>)
    requires id < EXT_ID_LIMIT && 8 <= |payload| && transferId < 32 && SlotFor(slot, id + FRAME_EFF)
    requires Ready(slot, transferId, a.ts)
    requires a.frame == FrameFrom(id, transferId, crc, payload, 0, false)
    requires Signature(accept, a.frame) == Some(signature)
    ensures a.frame.data != [] && !ServeTrips(accept, slot, a)
    ensures var o := Serve(accept, slot, a);
            && o.delivered.None? && o.slot.Some? && o.slot.value.timestamp == a.ts
            && Holding(o.slot.value, id, transferId, crc, Crc.AddSignature(0xFFFF, signature), payload, 5, true)
  {
    hide IsStart, IsEnd, Toggle, TransferIdOf, Tail, Body, TailByte, FrameFrom, Crc.Add, Crc.AddSignature, NeedRestart,
         Current, DescriptorOf, HeaderOf, Ready, CrcBytes, FrameCrc, Signature, Stored;
    var f := a.frame;
    FrameParts(id, transferId, crc, payload, 0, false);
    TailByteFields(true, false, false, transferId);
    var s := OpenSlot(slot, DescriptorOf(f.id), signature);
    OpenReady(slot, DescriptorOf(f.id), signature, transferId, a.ts);
    ReadyCurrent(s, Tail(f), transferId, a.ts);
    if slot.Some? {
      ReadyCurrent(slot.value, Tail(f), transferId, a.ts);
    }
    FirstFrameBytes(id, transferId, crc, payload);
  }

  lemma FirstFrameBytes(id: nat, transferId: bv8, crc: bv16, payload: seq<bv8>)
    requires id < EXT_ID_LIMIT && 8 <= |payload| && transferId < 32
    ensures var f := FrameFrom(id, transferId, crc, payload, 0, false);
            |f.data| == 8 && Stored(f) == payload[..5] && FrameCrc(f) == crc
  {
    hide IsStart, IsEnd, Toggle, TransferIdOf, Tail, TailByte, CrcBytes, FrameCrc, Body;
    var f := FrameFrom(id, transferId, crc, payload, 0, false);
    FrameParts(id, transferId, crc, payload, 0, false);
    TailByteFields(true, false, false, transferId);
    assert f.data == CrcBytes(crc) + (payload[0..5] + [Tail(f)]);
    CrcOnWire(crc, f, payload[0..5] + [Tail(f)]);
    assert f.data[2..7] == payload[..5];
  }

  lemma SingleStep(accept: Accept, slot: Slot, a: Arrival, id: nat, transferId: bv8, signature: bv64, payload: seq<bv8>)
    requires id < EXT_ID_LIMIT && |payload| < 8 && transferId < 32 && SlotFor(slot, id + FRAME_EFF)
    requires Ready(slot, transferId, a.ts)
    requires a.frame == TxFrames(id, transferId, 0xFFFF, payload)[0] && Signature(accept, a.frame) == Some(signature)
    ensures a.frame.data != [] && !ServeTrips(accept, slot, a)
    ensures var o := Serve(accept, slot, a);
            && o.delivered == Some(Transfer(a.ts, payload, HeaderOf(id + FRAME_EFF), transferId))
            && o.slot.Some? && o.slot.value.timestamp == a.ts && o.slot.value.desc == DescriptorOf(id + FRAME_EFF)
            && Clean(o.slot.value, NextId(transferId))
  {
    hide IsStart, IsEnd, Toggle, TransferIdOf, TailByte, Crc.Add, Crc.AddSignature, NeedRestart, Current,
         DescriptorOf, HeaderOf, Ready, CrcBytes, FrameCrc, Signature, Stored;
    var f := a.frame;
    assert Body(f) == payload && Tail(f) == TailByte(true, true, false, transferId);
    TailByteFields(true, true, false, transferId);
    var s := OpenSlot(slot, DescriptorOf(f.id), signature);
    OpenReady(slot, DescriptorOf(f.id), signature, transferId, a.ts);
    ReadyCurrent(s, Tail(f), transferId, a.ts);
    if slot.Some? {
      ReadyCurrent(slot.value, Tail(f), transferId, a.ts);
    }
  }

  // ---------------------------------------------------------------------------------------------
  // Whole transfers

  /** The run delivers exactly transfer t and leaves the slot waiting for the next one. */
  predicate DeliversOne(accept: Accept, slot: Slot, run: seq<Arrival>, t: Transfer, started: nat) {
    && Tailed(run) && Smooth(accept, slot, run) && Delivered(accept, slot, run) == [t]
    && var s := After(accept, slot, run);
       s.Some? && s.value.desc == MakeDescriptor(t.header) && s.value.timestamp == started
       && Clean(s.value, NextId(t.transferId))
  }

  lemma RunOfOne(accept: Accept, slot: Slot, a: Arrival, t: Transfer, started: nat)
    requires a.frame.data != [] && !ServeTrips(accept, slot, a)
    requires var o := Serve(accept, slot, a);
             o.delivered == Some(t) && o.slot.Some? && o.slot.value.desc == MakeDescriptor(t.header)
             && o.slot.value.timestamp == started && Clean(o.slot.value, NextId(t.transferId))
    ensures DeliversOne(accept, slot, [a], t, started)
  {
    hide Serve, ServeTrips, Clean, MakeDescriptor;
    var run := [a];
    var o := Serve(accept, slot, a);
    assert run[1..] == [];
    assert After(accept, o.slot, run[1..]) == o.slot && Delivered(accept, o.slot, run[1..]) == []
           && Smooth(accept, o.slot, run[1..]);
  }

  lemma RunOfMore(accept: Accept, slot: Slot, a: Arrival, rest: seq<Arrival>, t: Transfer, started: nat)
    requires a.frame.data != [] && !ServeTrips(accept, slot, a) && Serve(accept, slot, a).delivered.None?
    requires DeliversOne(accept, Serve(accept, slot, a).slot, rest, t, started)
    ensures DeliversOne(accept, slot, [a] + rest, t, started)
  {
    hide Serve, ServeTrips, Clean, MakeDescriptor;
    var run := [a] + rest;
    assert run[1..] == rest;
    assert Tailed(run);
  }

  lemma {:induction false} MiddleRun(accept: Accept, s: RxState, times: seq<nat>, id: nat, transferId: bv8, crc: bv16,
                                     seed: bv16,
                                     payload: seq<bv8>, index: nat, toggle: bool)
    requires id < EXT_ID_LIMIT && index % 7 == 5 && index < |payload| <= PAYLOAD_LIMIT && transferId < 32
    requires Holding(s, id, transferId, crc, seed, payload, index, toggle) && crc == Crc.Add(seed, payload)
    requires |times| == |FramesFrom(id, transferId, crc, payload, index, toggle)|
    requires s.timestamp > 0 && forall i | 0 <= i < |times| :: Elapsed(times[i], s.timestamp) <= TRANSFER_TIMEOUT
    ensures |times| > 0
    ensures DeliversOne(accept, Some(s), Arrivals(FramesFrom(id, transferId, crc, payload, index, toggle), times),
                        Transfer(times[|times| - 1], payload, HeaderOf(id + FRAME_EFF), transferId), s.timestamp)
    decreases |payload| - index
  {
    hide Serve, ServeTrips, Clean, Holding, DeliversOne, HeaderOf, MakeDescriptor, NextId, Crc.Add, FrameFrom, Elapsed;
    var frames := FramesFrom(id, transferId, crc, payload, index, toggle);
    var a := Arrival(frames[0], times[0]);
    var t := Transfer(times[|times| - 1], payload, HeaderOf(id + FRAME_EFF), transferId);
    HoldingDesc(s, id, transferId, crc, seed, payload, index, toggle);
    if index + 7 < |payload| {
      MiddleStep(accept, s, a, id, transferId, crc, seed, payload, index, toggle);
      var next := Serve(accept, Some(s), a).slot.value;
      MiddleRun(accept, next, times[1..], id, transferId, crc, seed, payload, index + 7, !toggle);
      var rest := Arrivals(FramesFrom(id, transferId, crc, payload, index + 7, !toggle), times[1..]);
      RunOfMore(accept, Some(s), a, rest, t, s.timestamp);
      assert Arrivals(frames, times) == [a] + rest;
    } else {
      LastStep(accept, s, a, id, transferId, crc, seed, payload, index, toggle);
      RunOfOne(accept, Some(s), a, t, s.timestamp);
      assert Arrivals(frames, times) == [a];
    }
  }

  lemma HoldingDesc(s: RxState, id: nat, transferId: bv8, crc: bv16, seed: bv16, payload: seq<bv8>, index: nat,
                    toggle: bool)
    requires id < EXT_ID_LIMIT && index <= |payload| && Holding(s, id, transferId, crc, seed, payload, index, toggle)
    ensures s.desc == MakeDescriptor(HeaderOf(id + FRAME_EFF))
  {
  }

  lemma TimesPassed(now: nat, since: nat)
    requires since <= now < TIME_LIMIT && now - since <= TRANSFER_TIMEOUT
    ensures Elapsed(now, since) <= TRANSFER_TIMEOUT
  {
  }

  /** The signature the receiver wants for an identifier. */
  function Accepted(accept: Accept, id: nat): Option<bv64>
    requires id < EXT_ID_LIMIT
  {
    Signature(accept, FrameRaw.Frame(id + FRAME_EFF, []))
  }

  /** Any transfer, fed frame by frame to a receiver that is ready for it, is delivered unchanged and once. */
  lemma RoundTrip(accept: Accept, slot: Slot, id: nat, transferId: bv8, signature: bv64, payload: seq<bv8>,
                  times: seq<nat>)
    requires id < EXT_ID_LIMIT && transferId < 32 && |payload| <= PAYLOAD_LIMIT
    requires Accepted(accept, id) == Some(signature)
    requires |times| == |TxFrames(id, transferId, CrcFor(signature, payload), payload)| && Timely(times)
    requires SlotFor(slot, id + FRAME_EFF) && Ready(slot, transferId, times[0])
    ensures DeliversOne(accept, slot, Arrivals(TxFrames(id, transferId, CrcFor(signature, payload), payload), times),
                        Transfer(times[|times| - 1], payload, HeaderOf(id + FRAME_EFF), transferId), times[0])
  {
    hide Serve, ServeTrips, Clean, Holding, DeliversOne, HeaderOf, MakeDescriptor, NextId, Crc.Add, FrameFrom, Elapsed,
         Crc.AddSignature, SlotFor, Ready, FramesFrom;
    var crc := CrcFor(signature, payload);
    var frames := TxFrames(id, transferId, crc, payload);
    FramesUnfold(id, transferId, crc, payload);
    var a := Arrival(frames[0], times[0]);
    var t := Transfer(times[|times| - 1], payload, HeaderOf(id + FRAME_EFF), transferId);
    FrameId(id, transferId, crc, payload);
    if |payload| < 8 {
      SingleStep(accept, slot, a, id, transferId, signature, payload);
      DescriptorIs(id + FRAME_EFF);
      RunOfOne(accept, slot, a, t, times[0]);
      assert Arrivals(frames, times) == [a];
    } else {
      FirstStep(accept, slot, a, id, transferId, crc, signature, payload);
      var next := Serve(accept, slot, a).slot.value;
      forall i | 0 <= i < |times| ensures Elapsed(times[i], times[0]) <= TRANSFER_TIMEOUT {
        TimesPassed(times[i], times[0]);
      }
      MiddleRun(accept, next, times[1..], id, transferId, crc, Crc.AddSignature(0xFFFF, signature), payload, 5, true);
      var rest := Arrivals(FramesFrom(id, transferId, crc, payload, 5, true), times[1..]);
      RunOfMore(accept, slot, a, rest, t, times[0]);
      assert Arrivals(frames, times) == [a] + rest;
    }
  }

  lemma DescriptorIs(id: Word)
    ensures DescriptorOf(id) == MakeDescriptor(HeaderOf(id))
  {
  }

  lemma FrameId(id: nat, transferId: bv8, crc: bv16, payload: seq<bv8>)
    requires id < EXT_ID_LIMIT
    ensures var frames := TxFrames(id, transferId, crc, payload); frames != [] && frames[0].id == id + FRAME_EFF
  {
    hide FrameFrom;
    if |payload| >= 8 {
      FrameParts(id, transferId, crc, payload, 0, false);
    }
  }

  lemma FramesUnfold(id: nat, transferId: bv8, crc: bv16, payload: seq<bv8>)
    requires id < EXT_ID_LIMIT
    ensures |payload| >= 8 ==> TxFrames(id, transferId, crc, payload) ==
                               [FrameFrom(id, transferId, crc, payload, 0, false)]
                                   + FramesFrom(id, transferId, crc, payload, 5, true)
  {
    hide FrameFrom;
  }

  /** At 1020 stored bytes one more middle frame runs over the 10-bit length counter. */
  lemma MiddleTrips(accept: Accept, s: RxState, a: Arrival, id: nat, transferId: bv8, crc: bv16, seed: bv16,
                    payload: seq<bv8>, toggle: bool)
    requires id < EXT_ID_LIMIT && |payload| > PAYLOAD_LIMIT && transferId < 32
    requires Holding(s, id, transferId, crc, seed, payload, 1020, toggle)
    requires a.frame == FrameFrom(id, transferId, crc, payload, 1020, toggle)
    requires s.timestamp > 0 && Elapsed(a.ts, s.timestamp) <= TRANSFER_TIMEOUT
    ensures a.frame.data != [] && ServeTrips(accept, Some(s), a)
  {
    hide IsStart, IsEnd, Toggle, TransferIdOf, Tail, Body, TailByte, FrameFrom, Crc.Add, Elapsed, NeedRestart, Current,
         DescriptorOf;
    FrameParts(id, transferId, crc, payload, 1020, toggle);
    TailByteFields(false, false, toggle, transferId);
    NoRestart(s, Tail(a.frame), a.ts);
    assert Stored(a.frame) == payload[1020..1027];
  }

  lemma {:induction false} FramesTailed(id: nat, transferId: bv8, crc: bv16, payload: seq<bv8>, index: nat,
                                        toggle: bool, times: seq<nat>)
    requires id < EXT_ID_LIMIT && index <= |payload|
    requires |times| == |FramesFrom(id, transferId, crc, payload, index, toggle)|
    ensures Tailed(Arrivals(FramesFrom(id, transferId, crc, payload, index, toggle), times))
    decreases |payload| - index
  {
    hide FrameFrom;
    if index < |payload| {
      FramesFromIs(id, transferId, crc, payload, index, toggle);
      FramesTailed(id, transferId, crc, payload, ChunkEnd(index, |payload|), !toggle, times[1..]);
      var rest := Arrivals(FramesFrom(id, transferId, crc, payload, ChunkEnd(index, |payload|), !toggle), times[1..]);
      assert Arrivals(FramesFrom(id, transferId, crc, payload, index, toggle), times)[1..] == rest;
      TailedMore(Arrivals(FramesFrom(id, transferId, crc, payload, index, toggle), times), rest);
    }
  }

  lemma TailedMore(run: seq<Arrival>, rest: seq<Arrival>)
    requires run != [] && run[0].frame.data != [] && run[1..] == rest && Tailed(rest)
    ensures Tailed(run)
  {
    forall i | 0 <= i < |run| ensures run[i].frame.data != [] {
      if i > 0 {
        assert run[i] == rest[i - 1];
      }
    }
  }

  lemma {:induction false} LongMiddleRun(accept: Accept, s: RxState, times: seq<nat>, id: nat, transferId: bv8,
                                         crc: bv16,
                                         seed: bv16, payload: seq<bv8>, index: nat, toggle: bool)
    requires id < EXT_ID_LIMIT && index % 7 == 5 && index <= 1020 && |payload| > PAYLOAD_LIMIT && transferId < 32
    requires Holding(s, id, transferId, crc, seed, payload, index, toggle)
    requires |times| == |FramesFrom(id, transferId, crc, payload, index, toggle)|
    requires s.timestamp > 0 && forall i | 0 <= i < |times| :: Elapsed(times[i], s.timestamp) <= TRANSFER_TIMEOUT
    ensures var run := Arrivals(FramesFrom(id, transferId, crc, payload, index, toggle), times);
            Tailed(run) && !Smooth(accept, Some(s), run)
    decreases |payload| - index
  {
    hide Serve, ServeTrips, Holding, Crc.Add, FrameFrom, Elapsed;
    var frames := FramesFrom(id, transferId, crc, payload, index, toggle);
    var a := Arrival(frames[0], times[0]);
    var run := Arrivals(frames, times);
    FramesTailed(id, transferId, crc, payload, index, toggle, times);
    if index < 1020 {
      MiddleStep(accept, s, a, id, transferId, crc, seed, payload, index, toggle);
      var next := Serve(accept, Some(s), a).slot.value;
      LongMiddleRun(accept, next, times[1..], id, transferId, crc, seed, payload, index + 7, !toggle);
      assert run[1..] == Arrivals(FramesFrom(id, transferId, crc, payload, index + 7, !toggle), times[1..]);
    } else {
      MiddleTrips(accept, s, a, id, transferId, crc, seed, payload, toggle);
    }
  }

  lemma LongTransferTrips(accept: Accept, slot: Slot, id: nat, transferId: bv8, signature: bv64, payload: seq<bv8>,
                          times: seq<nat>)
    requires id < EXT_ID_LIMIT && transferId < 32 && Accepted(accept, id) == Some(signature)
    requires |payload| > PAYLOAD_LIMIT
    requires |times| == |TxFrames(id, transferId, CrcFor(signature, payload), payload)| && Timely(times)
    requires SlotFor(slot, id + FRAME_EFF) && times != [] && Ready(slot, transferId, times[0])
    ensures var run := Arrivals(TxFrames(id, transferId, CrcFor(signature, payload), payload), times);
            Tailed(run) && !Smooth(accept, slot, run)
  {
    hide Serve, ServeTrips, Clean, Holding, HeaderOf, MakeDescriptor, NextId, Crc.Add, FrameFrom, Elapsed,
         Crc.AddSignature, SlotFor, Ready, FramesFrom, CrcFor, TxFrames, Accepted;
    var crc := CrcFor(signature, payload);
    var frames := TxFrames(id, transferId, crc, payload);
    FramesUnfold(id, transferId, crc, payload);
    FrameId(id, transferId, crc, payload);
    var a := Arrival(frames[0], times[0]);
    AcceptedIs(accept, id, a.frame);
    FirstStep(accept, slot, a, id, transferId, crc, signature, payload);
    var next := Serve(accept, slot, a).slot.value;
    forall i | 0 <= i < |times| ensures Elapsed(times[i], times[0]) <= TRANSFER_TIMEOUT {
      TimesPassed(times[i], times[0]);
    }
    LongMiddleRun(accept, next, times[1..], id, transferId, crc, Crc.AddSignature(0xFFFF, signature), payload, 5, true);
    assert Arrivals(frames, times)[1..] == Arrivals(FramesFrom(id, transferId, crc, payload, 5, true), times[1..]);
  }

  lemma AcceptedIs(accept: Accept, id: nat, f: Frame)
    requires id < EXT_ID_LIMIT && f.id == id + FRAME_EFF
    ensures Signature(accept, f) == Accepted(accept, id)
  {
    hide HeaderOf;
  }

  /** The round trip goes without tripping exactly for payloads of up to 1027 bytes. */
  lemma RoundTripLimit(accept: Accept, slot: Slot, id: nat, transferId: bv8, signature: bv64, payload: seq<bv8>,
                       times: seq<nat>)
    requires id < EXT_ID_LIMIT && transferId < 32 && Accepted(accept, id) == Some(signature)
    requires |times| == |TxFrames(id, transferId, CrcFor(signature, payload), payload)| && Timely(times)
    requires SlotFor(slot, id + FRAME_EFF) && times != [] && Ready(slot, transferId, times[0])
    ensures var run := Arrivals(TxFrames(id, transferId, CrcFor(signature, payload), payload), times);
            Tailed(run) && (Smooth(accept, slot, run) <==> |payload| <= 1027)
  {
    hide SlotFor, Ready, TxFrames, CrcFor, Accepted, Smooth, Delivered, After, Clean, MakeDescriptor, HeaderOf;
    if |payload| <= PAYLOAD_LIMIT {
      RoundTrip(accept, slot, id, transferId, signature, payload, times);
    } else {
      LongTransferTrips(accept, slot, id, transferId, signature, payload, times);
    }
  }

  // ---------------------------------------------------------------------------------------------
  // After a lost transfer

  lemma OneAhead(t: bv8)
    requires t < 32
    ensures ForwardDistance(t, NextId(t)) == 1 && NextId(t) != t && NextId(t) < 32
  {
  }

  /** A single-frame transfer one ID ahead, after the loss of the one expected, is delivered. But the state then waits
      for the ID it has just seen, not for the next one. */
  lemma LagsAfterLoss(accept: Accept, s: RxState, a: Arrival, id: nat, signature: bv64, payload: seq<bv8>)
    requires id < EXT_ID_LIMIT && |payload| < 8 && s.transferId < 32 && Clean(s, s.transferId)
    requires s.desc == DescriptorOf(id + FRAME_EFF) && s.timestamp > 0 && Elapsed(a.ts, s.timestamp) <= TRANSFER_TIMEOUT
    requires a.frame == TxFrames(id, NextId(s.transferId), 0xFFFF, payload)[0]
    requires Signature(accept, a.frame) == Some(signature)
    ensures a.frame.data != [] && !ServeTrips(accept, Some(s), a)
    ensures var o := Serve(accept, Some(s), a);
            && o.delivered == Some(Transfer(a.ts, payload, HeaderOf(id + FRAME_EFF), NextId(s.transferId)))
            && o.slot.Some? && Clean(o.slot.value, NextId(s.transferId))
  {
    hide IsStart, IsEnd, Toggle, TransferIdOf, TailByte, Crc.Add, Crc.AddSignature, DescriptorOf, HeaderOf, CrcBytes,
         FrameCrc, Signature, Stored, NextId, ForwardDistance, Elapsed;
    var f, next := a.frame, NextId(s.transferId);
    OneAhead(s.transferId);
    assert Body(f) == payload && Tail(f) == TailByte(true, true, false, next);
    TailByteFields(true, true, false, next);
  }

  /** A frame other than the first of a transfer whose ID the state does not have is ignored; and the state does not get
      that ID by it, even if it times out. */
  lemma IgnoredStep(accept: Accept, s: RxState, a: Arrival, transferId: bv8)
    requires a.frame.data != [] && !IsStart(Tail(a.frame)) && TransferIdOf(Tail(a.frame)) == transferId < 32
    requires s.transferId != transferId
    ensures !ServeTrips(accept, Some(s), a)
    ensures var o := Serve(accept, Some(s), a);
            o.delivered.None? && o.slot.Some? && o.slot.value.transferId != transferId
  {
    hide IsStart, IsEnd, Toggle, TransferIdOf, Tail, Crc.Add, NextId, ForwardDistance, Elapsed;
    OneAhead(transferId);
  }

  /** The first frame of a multi-frame transfer one ID ahead of what an idle state waits for. */
  lemma IgnoredFirst(accept: Accept, s: RxState, a: Arrival, transferId: bv8)
    requires a.frame.data != [] && IsStart(Tail(a.frame)) && !IsEnd(Tail(a.frame))
    requires TransferIdOf(Tail(a.frame)) == transferId && s.transferId < 32
    requires ForwardDistance(s.transferId, transferId) == 1
    requires s.timestamp > 0 && Elapsed(a.ts, s.timestamp) <= TRANSFER_TIMEOUT
    ensures !ServeTrips(accept, Some(s), a)
    ensures var o := Serve(accept, Some(s), a);
            o.delivered.None? && o.slot.Some? && o.slot.value.transferId == s.transferId
    ensures s.transferId != transferId
  {
    hide IsStart, IsEnd, Toggle, TransferIdOf, Tail, Crc.Add, Crc.AddSignature, DescriptorOf, HeaderOf, Signature,
         NextId, Elapsed;
    NotAhead(s.transferId);
  }

  lemma NotAhead(t: bv8)
    ensures ForwardDistance(t, t) == 0
  {
  }

  lemma {:induction false} IgnoredRun(accept: Accept, s: RxState, times: seq<nat>, id: nat, transferId: bv8, crc: bv16,
                                      payload: seq<bv8>, index: nat, toggle: bool)
    requires id < EXT_ID_LIMIT && 0 < index <= |payload| && transferId < 32 && s.transferId != transferId
    requires |times| == |FramesFrom(id, transferId, crc, payload, index, toggle)|
    ensures var run := Arrivals(FramesFrom(id, transferId, crc, payload, index, toggle), times);
            Tailed(run) && Smooth(accept, Some(s), run) && Delivered(accept, Some(s), run) == []
    decreases |payload| - index
  {
    hide Serve, ServeTrips, FrameFrom, TailByte, IsStart, IsEnd, Toggle, TransferIdOf, Tail, Body;
    var frames := FramesFrom(id, transferId, crc, payload, index, toggle);
    if index < |payload| {
      var a, end := Arrival(frames[0], times[0]), ChunkEnd(index, |payload|);
      FrameParts(id, transferId, crc, payload, index, toggle);
      TailByteFields(false, end == |payload|, toggle, transferId);
      IgnoredStep(accept, s, a, transferId);
      var next := Serve(accept, Some(s), a).slot.value;
      IgnoredRun(accept, next, times[1..], id, transferId, crc, payload, end, !toggle);
      RunFirst(accept, Some(s), a, Arrivals(FramesFrom(id, transferId, crc, payload, end, !toggle), times[1..]));
      assert Arrivals(frames, times) ==
             [a] + Arrivals(FramesFrom(id, transferId, crc, payload, end, !toggle), times[1..]);
    }
  }

  lemma RunFirst(accept: Accept, slot: Slot, a: Arrival, rest: seq<Arrival>)
    requires a.frame.data != [] && Tailed(rest)
    ensures Tailed([a] + rest)
    ensures After(accept, slot, [a] + rest) == After(accept, Serve(accept, slot, a).slot, rest)
    ensures Delivered(accept, slot, [a] + rest) ==
            Listed(Serve(accept, slot, a).delivered) + Delivered(accept, Serve(accept, slot, a).slot, rest)
    ensures Smooth(accept, slot, [a] + rest) <==>
            !ServeTrips(accept, slot, a) && Smooth(accept, Serve(accept, slot, a).slot, rest)
  {
    hide Serve, ServeTrips;
    assert ([a] + rest)[1..] == rest;
  }

  /** A state is ready for a transfer unless that is just one ID ahead of what it waits for, or the very one it is in
      the middle of. */
  lemma ReadyUnlessAhead(s: RxState, transferId: bv8, ts: nat)
    requires s.transferId < 32 && transferId < 32
    requires || Clean(s, s.transferId) || ForwardDistance(s.transferId, transferId) != 0
             || s.timestamp == 0 || Elapsed(ts, s.timestamp) > TRANSFER_TIMEOUT
    ensures Ready(Some(s), transferId, ts) <==>
            || s.timestamp == 0 || Elapsed(ts, s.timestamp) > TRANSFER_TIMEOUT
            || ForwardDistance(s.transferId, transferId) != 1
  {
    hide Elapsed;
    if ForwardDistance(s.transferId, transferId) == 0 {
      SameId(s.transferId, transferId);
    }
    NotAhead(s.transferId);
  }

  lemma SameId(t: bv8, u: bv8)
    requires t < 32 && u < 32 && ForwardDistance(t, u) == 0
    ensures t == u
  {
  }

  /** A multi-frame transfer just one ID ahead of what the state waits for: all of its frames are ignored. */
  lemma TransferIgnored(accept: Accept, s: RxState, id: nat, transferId: bv8, crc: bv16, payload: seq<bv8>,
                        times: seq<nat>)
    requires id < EXT_ID_LIMIT && transferId < 32 && 8 <= |payload|
    requires |times| == |TxFrames(id, transferId, crc, payload)|
    requires s.transferId < 32 && ForwardDistance(s.transferId, transferId) == 1
    requires s.timestamp > 0 && times != [] && Elapsed(times[0], s.timestamp) <= TRANSFER_TIMEOUT
    ensures var run := Arrivals(TxFrames(id, transferId, crc, payload), times);
            Tailed(run) && Smooth(accept, Some(s), run) && Delivered(accept, Some(s), run) == []
  {
    hide Serve, ServeTrips, Elapsed, FramesFrom, FrameFrom, TxFrames, After, Delivered, Smooth, ForwardDistance,
         TailByte, IsStart, IsEnd, Toggle, TransferIdOf, Tail, Body, Arrivals, Tailed;
    FramesUnfold(id, transferId, crc, payload);
    var first, frames := FrameFrom(id, transferId, crc, payload, 0, false),
        FramesFrom(id, transferId, crc, payload, 5, true);
    var a := Arrival(first, times[0]);
    FrameParts(id, transferId, crc, payload, 0, false);
    TailByteFields(true, false, false, transferId);
    IgnoredFirst(accept, s, a, transferId);
    ArrivalsSplit(first, frames, times);
    IgnoredRun(accept, Serve(accept, Some(s), a).slot.value, times[1..], id, transferId, crc, payload, 5, true);
    RunFirst(accept, Some(s), a, Arrivals(frames, times[1..]));
  }

  lemma ArrivalsSplit(first: Frame, frames: seq<Frame>, times: seq<nat>)
    requires |times| == 1 + |frames|
    ensures Arrivals([first] + frames, times) == [Arrival(first, times[0])] + Arrivals(frames, times[1..])
  {
  }

  /** Exactly when a multi-frame transfer is delivered that is not the one a state is in the middle of: if the state is
      new or stale, or the ID is not just one ahead of what it waits for. So after the loss of one transfer, another one
      within 2 s of the last one received is lost too. */
  lemma MultiFrameDeliveredIff(accept: Accept, s: RxState, id: nat, transferId: bv8, signature: bv64, payload: seq<bv8>,
                               times: seq<nat>)
    requires id < EXT_ID_LIMIT && transferId < 32 && 8 <= |payload| <= PAYLOAD_LIMIT
    requires Accepted(accept, id) == Some(signature)
    requires |times| == |TxFrames(id, transferId, CrcFor(signature, payload), payload)| && Timely(times)
    requires s.transferId < 32 && s.desc == DescriptorOf(id + FRAME_EFF)
    requires || Clean(s, s.transferId) || ForwardDistance(s.transferId, transferId) != 0
             || s.timestamp == 0 || times == [] || Elapsed(times[0], s.timestamp) > TRANSFER_TIMEOUT
    ensures times != []
    ensures var run := Arrivals(TxFrames(id, transferId, CrcFor(signature, payload), payload), times);
            && Tailed(run) && Smooth(accept, Some(s), run)
            && Delivered(accept, Some(s), run) ==
               if s.timestamp == 0 || Elapsed(times[0], s.timestamp) > TRANSFER_TIMEOUT
                  || ForwardDistance(s.transferId, transferId) != 1
               then [Transfer(times[|times| - 1], payload, HeaderOf(id + FRAME_EFF), transferId)] else []
  {
    hide HeaderOf, MakeDescriptor, Elapsed, CrcFor, TxFrames, Timely, Ready, Clean, Arrivals, Tailed, After, Delivered,
         Smooth, Accepted, DescriptorOf, ForwardDistance;
    FrameId(id, transferId, CrcFor(signature, payload), payload);
    ReadyUnlessAhead(s, transferId, times[0]);
    if Ready(Some(s), transferId, times[0]) {
      RoundTrip(accept, Some(s), id, transferId, signature, payload, times);
    } else {
      TransferIgnored(accept, s, id, transferId, CrcFor(signature, payload), payload, times);
    }
  }

  /** A single-frame transfer is delivered in whatever state it arrives, and trips nothing if that holds no blocks. */
  lemma SingleFrameDelivered(accept: Accept, slot: Slot, id: nat, transferId: bv8, signature: bv64, payload: seq<bv8>,
                             ts: nat)
    requires id < EXT_ID_LIMIT && transferId < 32 && |payload| < 8 && Accepted(accept, id) == Some(signature)
    ensures var run := Arrivals(TxFrames(id, transferId, CrcFor(signature, payload), payload), [ts]);
            && Tailed(run) && (slot.None? || slot.value.blocks == 0 ==> Smooth(accept, slot, run))
            && Delivered(accept, slot, run) == [Transfer(ts, payload, HeaderOf(id + FRAME_EFF), transferId)]
  {
    hide IsStart, IsEnd, Toggle, TransferIdOf, TailByte, Crc.Add, Crc.AddSignature, NeedRestart, DescriptorOf, HeaderOf,
         CrcFor, Signature, Stored, Accepted, NextId;
    var frames := TxFrames(id, transferId, CrcFor(signature, payload), payload);
    var a := Arrival(frames[0], ts);
    AcceptedIs(accept, id, a.frame);
    assert Body(a.frame) == payload && Tail(a.frame) == TailByte(true, true, false, transferId);
    TailByteFields(true, true, false, transferId);
    RunFirst(accept, slot, a, []);
    assert Arrivals(frames, [ts]) == [a] + [];
  }

  // ---------------------------------------------------------------------------------------------
  // Streams of transfers with consecutive transfer IDs

  /** A transfer as it was sent: 29-bit identifier, payload, and when its frames arrive. */
  datatype Sent = Sent(id: nat, payload: seq<bv8>, times: seq<nat>)

  /** The transfer is one of descriptor `desc`, and its frames arrive in time. */
  predicate Conforming(accept: Accept, desc: nat, signature: bv64, transferId: bv8, s: Sent) {
    && s.id < EXT_ID_LIMIT && DescriptorOf(s.id + FRAME_EFF) == desc && Accepted(accept, s.id) == Some(signature)
    && |s.payload| <= PAYLOAD_LIMIT && Timely(s.times)
    && |s.times| == |TxFrames(s.id, transferId, CrcFor(signature, s.payload), s.payload)|
  }

  predicate ConformingStream(accept: Accept, desc: nat, signature: bv64, transferId: bv8, stream: seq<Sent>)
    decreases |stream|
  {
    stream != [] ==>
      && Conforming(accept, desc, signature, transferId, stream[0])
      && ConformingStream(accept, desc, signature, NextId(transferId), stream[1..])
  }

  function ArrivalsOf(signature: bv64, transferId: bv8, s: Sent): seq<Arrival>
    requires s.id < EXT_ID_LIMIT && |s.times| == |TxFrames(s.id, transferId, CrcFor(signature, s.payload), s.payload)|
  {
    Arrivals(TxFrames(s.id, transferId, CrcFor(signature, s.payload), s.payload), s.times)
  }

  function StreamArrivals(accept: Accept, desc: nat, signature: bv64, transferId: bv8, stream: seq<Sent>): seq<Arrival>
    requires ConformingStream(accept, desc, signature, transferId, stream)
    decreases |stream|
  {
    if stream == [] then []
    else ArrivalsOf(signature, transferId, stream[0])
         + StreamArrivals(accept, desc, signature, NextId(transferId), stream[1..])
  }

  /** What the receiver's application should get to see. */
  function StreamTransfers(transferId: bv8, stream: seq<Sent>): seq<Transfer>
    requires forall i | 0 <= i < |stream| :: stream[i].id < EXT_ID_LIMIT && stream[i].times != []
    decreases |stream|
  {
    if stream == [] then []
    else
      var s := stream[0];
      [Transfer(s.times[|s.times| - 1], s.payload, HeaderOf(s.id + FRAME_EFF), transferId)]
      + StreamTransfers(NextId(transferId), stream[1..])
  }

  predicate ReadyForStream(slot: Slot, desc: nat, transferId: bv8, stream: seq<Sent>) {
    && (slot.Some? ==> slot.value.desc == desc)
    && (stream != [] && stream[0].times != [] ==> Ready(slot, transferId, stream[0].times[0]))
  }

  lemma ConformingShape(accept: Accept, desc: nat, signature: bv64, transferId: bv8, stream: seq<Sent>)
    requires ConformingStream(accept, desc, signature, transferId, stream)
    ensures forall i | 0 <= i < |stream| :: stream[i].id < EXT_ID_LIMIT && stream[i].times != []
    decreases |stream|
  {
    hide Timely, CrcFor, TxFrames, Accepted, DescriptorOf;
    if stream != [] {
      FrameId(stream[0].id, transferId, CrcFor(signature, stream[0].payload), stream[0].payload);
      ConformingShape(accept, desc, signature, NextId(transferId), stream[1..]);
    }
  }

  /** Any stream of transfers with consecutive IDs is delivered unchanged, in order, each transfer once. */
  lemma {:induction false} StreamRoundTrip(accept: Accept, slot: Slot, desc: nat, signature: bv64, transferId: bv8,
                                           stream: seq<Sent>)
    requires transferId < 32 && ConformingStream(accept, desc, signature, transferId, stream)
    requires ReadyForStream(slot, desc, transferId, stream)
    ensures forall i | 0 <= i < |stream| :: stream[i].id < EXT_ID_LIMIT && stream[i].times != []
    ensures var run := StreamArrivals(accept, desc, signature, transferId, stream);
            && Tailed(run) && Smooth(accept, slot, run)
            && Delivered(accept, slot, run) == StreamTransfers(transferId, stream)
    decreases |stream|
  {
    hide Serve, ServeTrips, HeaderOf, NextId, Elapsed, TxFrames, CrcFor, Timely, Ready, Accepted, MakeDescriptor,
         Arrivals;
    ConformingShape(accept, desc, signature, transferId, stream);
    if stream != [] {
      var s := stream[0];
      RoundTrip(accept, slot, s.id, transferId, signature, s.payload, s.times);
      var run := ArrivalsOf(signature, transferId, s);
      var rest := StreamArrivals(accept, desc, signature, NextId(transferId), stream[1..]);
      var next := After(accept, slot, run);
      NextIdFits(transferId);
      CleanIsReady(next, NextId(transferId));
      StreamRoundTrip(accept, next, desc, signature, NextId(transferId), stream[1..]);
      RunsCompose(accept, slot, run, rest);
    }
  }

  lemma CleanIsReady(slot: Slot, transferId: bv8)
    requires slot.Some? && Clean(slot.value, transferId)
    ensures forall ts :: Ready(slot, transferId, ts)
  {
  }
}

/** What becomes of a transfer that meets a state in the middle of another one, after frames of that were lost. */
module HalfReceived {
  import opened CanFrames
  import opened Reception
  import opened Transmission
  import opened Delivery
  import Crc = TransferCrc

  /** Where the last frame of a transfer of n bytes starts. */
  function LastStart(n: nat): (index: nat)
    requires n > 5
    ensures 5 <= index < n <= index + 7
  {
    5 + 7 * ((n - 6) / 7)
  }

  lemma LastStartIs(n: nat, index: nat)
    requires n > 5 && index % 7 == 5 && index < n
    ensures index <= LastStart(n) && LastStart(n) % 7 == 5 && (n <= index + 7 <==> index == LastStart(n))
    ensures index < LastStart(n) ==> index + 7 <= LastStart(n)
  {
    var i, k := index / 7, (n - 6) / 7;
    assert index == 7 * i + 5;
    Between(n, k);
    assert (7 * k + 5) % 7 == 5;
    hide LastStart;
    LastStartAt(n);
  }

  lemma Between(n: nat, k: nat)
    requires n > 5 && k == (n - 6) / 7
    ensures 7 * k + 5 < n <= 7 * k + 12
  {
  }

  lemma LastStartAt(n: nat)
    requires n > 5
    ensures LastStart(n) == 7 * ((n - 6) / 7) + 5
  {
  }

  /** The last block is exactly full: an end frame then trips an assertion. */
  predicate LastBlockFull(length: nat, blocks: nat) {
    blocks > 0 && length == HEAD_SIZE + BLOCK_SIZE * blocks
  }

  /** Appending at least one byte leaves no spare block. */
  lemma BlocksMore(length: nat, count: nat)
    requires count > 0
    ensures BlocksAfter(length, count) == BlocksFor(length + count)
  {
  }

  // ---------------------------------------------------------------------------------------------
  // Frames that a state accepts, whatever it holds

  /** The state with some more bytes. */
  function Extended(s: RxState, bytes: seq<bv8>): RxState {
    s.(payload := s.payload + bytes, blocks := BlocksFor(|s.payload| + |bytes|), toggle := !s.toggle,
       calculatedCrc := Crc.Add(s.calculatedCrc, bytes))
  }

  lemma CarryMiddle(accept: Accept, s: RxState, a: Arrival, id: nat, crc: bv16, payload: seq<bv8>, index: nat)
    requires id < EXT_ID_LIMIT && index % 7 == 5 && index + 7 < |payload| && s.transferId < 32
    requires a.frame == FrameFrom(id, s.transferId, crc, payload, index, s.toggle)
    requires s.timestamp > 0 && Elapsed(a.ts, s.timestamp) <= TRANSFER_TIMEOUT
    ensures a.frame.data != [] && (ServeTrips(accept, Some(s), a) <==> |s.payload| + 7 >= LENGTH_LIMIT)
    ensures |s.payload| + 7 < LENGTH_LIMIT ==>
              Serve(accept, Some(s), a) == Served(Some(Extended(s, payload[index..index + 7])), None)
  {
    hide IsStart, IsEnd, Toggle, TransferIdOf, Tail, Body, TailByte, FrameFrom, Crc.Add, Elapsed, NeedRestart, Current,
         BlocksFor, BlocksAfter, DescriptorOf;
    FrameParts(id, s.transferId, crc, payload, index, s.toggle);
    TailByteFields(false, false, s.toggle, s.transferId);
    NoRestart(s, Tail(a.frame), a.ts);
    assert Stored(a.frame) == payload[index..index + 7];
    BlocksMore(|s.payload|, 7);
    if |s.payload| + 7 < LENGTH_LIMIT {
      AfterBound(|s.payload|, 7);
    }
  }

  lemma CarryLast(accept: Accept, s: RxState, a: Arrival, id: nat, crc: bv16, payload: seq<bv8>, index: nat)
    requires id < EXT_ID_LIMIT && index % 7 == 5 && index < |payload| <= index + 7 && s.transferId < 32
    requires a.frame == FrameFrom(id, s.transferId, crc, payload, index, s.toggle)
    requires s.timestamp > 0 && Elapsed(a.ts, s.timestamp) <= TRANSFER_TIMEOUT
    ensures a.frame.data != [] && (ServeTrips(accept, Some(s), a) <==> LastBlockFull(|s.payload|, s.blocks))
    ensures Serve(accept, Some(s), a).delivered ==
            if Crc.Add(s.calculatedCrc, payload[index..]) == s.payloadCrc
            then Some(Transfer(a.ts, s.payload + payload[index..], HeaderOf(id + FRAME_EFF), s.transferId)) else None
  {
    hide IsStart, IsEnd, Toggle, TransferIdOf, Tail, Body, TailByte, FrameFrom, Crc.Add, Elapsed, NeedRestart, Current,
         DescriptorOf, HeaderOf, NextId;
    FrameParts(id, s.transferId, crc, payload, index, s.toggle);
    TailByteFields(false, true, s.toggle, s.transferId);
    NoRestart(s, Tail(a.frame), a.ts);
    assert Body(a.frame) == payload[index..];
  }

  /** The first frame of a transfer with the ID that the state is in the middle of, when the toggle bit fits as well: it
      does not start over, but its bytes are appended. */
  lemma CarryFirst(accept: Accept, s: RxState, a: Arrival, id: nat, crc: bv16, signature: bv64, payload: seq<bv8>)
    requires id < EXT_ID_LIMIT && 8 <= |payload| && s.transferId < 32 && !s.toggle
    requires a.frame == FrameFrom(id, s.transferId, crc, payload, 0, false)
    requires Signature(accept, a.frame) == Some(signature)
    requires s.timestamp > 0 && Elapsed(a.ts, s.timestamp) <= TRANSFER_TIMEOUT
    ensures a.frame.data != [] && (ServeTrips(accept, Some(s), a) <==> |s.payload| + 5 >= LENGTH_LIMIT)
    ensures |s.payload| + 5 < LENGTH_LIMIT ==>
              var begun := s.(timestamp := a.ts, payloadCrc := crc,
                              calculatedCrc := Crc.AddSignature(0xFFFF, signature));
              Serve(accept, Some(s), a) == Served(Some(Extended(begun, payload[..5])), None)
  {
    hide IsStart, IsEnd, Toggle, TransferIdOf, Tail, Body, TailByte, FrameFrom, Crc.Add, Crc.AddSignature, Elapsed,
         NeedRestart, DescriptorOf, HeaderOf, CrcBytes, FrameCrc, Signature, Stored, BlocksFor, BlocksAfter;
    FrameParts(id, s.transferId, crc, payload, 0, false);
    TailByteFields(true, false, false, s.transferId);
    FirstFrameBytes(id, s.transferId, crc, payload);
    SameIdNoRestart(s, Tail(a.frame), a.ts);
    SameIdNoRestart(OpenSlot(Some(s), DescriptorOf(a.frame.id), signature), Tail(a.frame), a.ts);
    BlocksMore(|s.payload|, 5);
    if |s.payload| + 5 < LENGTH_LIMIT {
      AfterBound(|s.payload|, 5);
    }
  }

  /** When the toggle bit does not fit, the frame is ignored, but for the CRC, which starts over. */
  lemma FirstSkipped(accept: Accept, s: RxState, a: Arrival, id: nat, crc: bv16, signature: bv64, payload: seq<bv8>)
    requires id < EXT_ID_LIMIT && 8 <= |payload| && s.transferId < 32 && s.toggle
    requires a.frame == FrameFrom(id, s.transferId, crc, payload, 0, false)
    requires Signature(accept, a.frame) == Some(signature)
    requires s.timestamp > 0 && Elapsed(a.ts, s.timestamp) <= TRANSFER_TIMEOUT
    ensures a.frame.data != [] && !ServeTrips(accept, Some(s), a)
    ensures Serve(accept, Some(s), a) == Served(Some(s.(calculatedCrc := Crc.AddSignature(0xFFFF, signature))), None)
  {
    hide IsStart, IsEnd, Toggle, TransferIdOf, Tail, Body, TailByte, FrameFrom, Crc.Add, Crc.AddSignature, Elapsed,
         NeedRestart, DescriptorOf, HeaderOf, CrcBytes, FrameCrc, Signature, Stored;
    FrameParts(id, s.transferId, crc, payload, 0, false);
    TailByteFields(true, false, false, s.transferId);
    SameIdNoRestart(s, Tail(a.frame), a.ts);
    SameIdNoRestart(OpenSlot(Some(s), DescriptorOf(a.frame.id), signature), Tail(a.frame), a.ts);
  }

  lemma SameIdNoRestart(s: RxState, tail: bv8, ts: nat)
    requires s.timestamp > 0 && Elapsed(ts, s.timestamp) <= TRANSFER_TIMEOUT && TransferIdOf(tail) == s.transferId
    ensures !NeedRestart(s, tail, ts)
  {
    hide IsStart, TransferIdOf, Elapsed;
    NotAhead(s.transferId);
  }

  // ---------------------------------------------------------------------------------------------
  // The frames behind the first one

  /** What the state will have stored when the last frame comes, if it takes all frames from `index` on. */
  function StoredAtEnd(s: RxState, payload: seq<bv8>, index: nat): nat
    requires 5 <= index && index % 7 == 5 && index < |payload|
  {
    LastStartIs(|payload|, index);
    |s.payload| + (LastStart(|payload|) - index)
  }

  function BlocksAtEnd(s: RxState, payload: seq<bv8>, index: nat): nat
    requires 5 <= index && index % 7 == 5 && index < |payload|
  {
    if index == LastStart(|payload|) then s.blocks else BlocksFor(StoredAtEnd(s, payload, index))
  }

  /** The frames of the run trip nothing, or fill the length counter or the last block: exactly one of the two. */
  predicate FitsOrTrips(accept: Accept, slot: Slot, run: seq<Arrival>, stored: nat, blocks: nat)
    requires Tailed(run)
  {
    Smooth(accept, slot, run) <==> stored < LENGTH_LIMIT && !LastBlockFull(stored, blocks)
  }

  /** What a run of a transfer's frames from `index` on should deliver at time ts: their bytes behind what the state
      has, if the CRC over them is the one the state has. */
  predicate Carried(accept: Accept, s: RxState, run: seq<Arrival>, id: nat, payload: seq<bv8>, index: nat, ts: nat)
    requires id < EXT_ID_LIMIT && 5 <= index && index % 7 == 5 && index < |payload|
  {
    && Tailed(run)
    && FitsOrTrips(accept, Some(s), run, StoredAtEnd(s, payload, index), BlocksAtEnd(s, payload, index))
    && (StoredAtEnd(s, payload, index) < LENGTH_LIMIT ==>
          Delivered(accept, Some(s), run) ==
          if Crc.Add(s.calculatedCrc, payload[index..]) == s.payloadCrc
          then [Transfer(ts, s.payload + payload[index..], HeaderOf(id + FRAME_EFF), s.transferId)] else [])
  }

  lemma CarriedLast(accept: Accept, s: RxState, a: Arrival, id: nat, crc: bv16, payload: seq<bv8>, index: nat)
    requires id < EXT_ID_LIMIT && 5 <= index && index % 7 == 5 && index < |payload| && s.transferId < 32
    requires index == LastStart(|payload|) && |s.payload| < LENGTH_LIMIT
    requires a.frame == FrameFrom(id, s.transferId, crc, payload, index, s.toggle)
    requires s.timestamp > 0 && Elapsed(a.ts, s.timestamp) <= TRANSFER_TIMEOUT
    ensures Carried(accept, s, [a], id, payload, index, a.ts)
  {
    hide Serve, ServeTrips, HeaderOf, Crc.Add, FrameFrom, Elapsed, Tailed, Smooth, Delivered, After, LastStart;
    LastStartIs(|payload|, index);
    CarryLast(accept, s, a, id, crc, payload, index);
    NothingRuns(accept, Serve(accept, Some(s), a).slot);
    RunFirst(accept, Some(s), a, []);
    assert [a] == [a] + [];
  }

  lemma NothingRuns(accept: Accept, slot: Slot)
    ensures Tailed([]) && Smooth(accept, slot, []) && Delivered(accept, slot, []) == []
  {
  }

  lemma CarriedMore(accept: Accept, s: RxState, a: Arrival, rest: seq<Arrival>, id: nat, crc: bv16, payload: seq<bv8>,
                    index: nat, ts: nat)
    requires id < EXT_ID_LIMIT && 5 <= index && index % 7 == 5 && index + 7 < |payload| && s.transferId < 32
    requires a.frame == FrameFrom(id, s.transferId, crc, payload, index, s.toggle) && Tailed(rest)
    requires s.timestamp > 0 && Elapsed(a.ts, s.timestamp) <= TRANSFER_TIMEOUT
    requires |s.payload| + 7 < LENGTH_LIMIT ==>
               Carried(accept, Extended(s, payload[index..index + 7]), rest, id, payload, index + 7, ts)
    ensures Carried(accept, s, [a] + rest, id, payload, index, ts)
  {
    hide Serve, ServeTrips, HeaderOf, Crc.Add, FrameFrom, Elapsed, Tailed, Smooth, Delivered, After, LastStart;
    LastStartIs(|payload|, index);
    CarryMiddle(accept, s, a, id, crc, payload, index);
    RunFirst(accept, Some(s), a, rest);
    if |s.payload| + 7 < LENGTH_LIMIT {
      Crc.AddConcat(s.calculatedCrc, payload[index..index + 7], payload[index + 7..]);
      SlicesMeet(s.payload, payload, index, index + 7);
      BlocksStay(s, payload, index);
    }
  }

  /** All remaining frames of a transfer, in time, on a state with its ID and toggle bit: their bytes are appended to
      what the state has, and the result is delivered if the CRC is the one the state has. */
  lemma {:induction false} CarryRun(accept: Accept, s: RxState, times: seq<nat>, id: nat, crc: bv16, payload: seq<bv8>,
                                    index: nat)
    requires id < EXT_ID_LIMIT && 5 <= index && index % 7 == 5 && index < |payload| && s.transferId < 32
    requires |s.payload| < LENGTH_LIMIT
    requires |times| == |FramesFrom(id, s.transferId, crc, payload, index, s.toggle)|
    requires s.timestamp > 0 && forall i | 0 <= i < |times| :: Elapsed(times[i], s.timestamp) <= TRANSFER_TIMEOUT
    ensures |times| > 0
    ensures var run := Arrivals(FramesFrom(id, s.transferId, crc, payload, index, s.toggle), times);
            Carried(accept, s, run, id, payload, index, times[|times| - 1])
    decreases |payload| - index
  {
    hide HeaderOf, Crc.Add, FrameFrom, Elapsed, Arrivals, Tailed, Carried, LastStart;
    LastStartIs(|payload|, index);
    FramesFromIs(id, s.transferId, crc, payload, index, s.toggle);
    var f, end := FrameFrom(id, s.transferId, crc, payload, index, s.toggle), ChunkEnd(index, |payload|);
    var frames := FramesFrom(id, s.transferId, crc, payload, end, !s.toggle);
    var a := Arrival(f, times[0]);
    ArrivalsSplit(f, frames, times);
    if index == LastStart(|payload|) {
      CarriedLast(accept, s, a, id, crc, payload, index);
      NoMoreArrivals(frames, times[1..]);
      assert [a] + [] == [a];
    } else {
      FramesTailed(id, s.transferId, crc, payload, end, !s.toggle, times[1..]);
      if |s.payload| + 7 < LENGTH_LIMIT {
        CarryRun(accept, Extended(s, payload[index..index + 7]), times[1..], id, crc, payload, index + 7);
      }
      MoreTimes(id, s.transferId, crc, payload, end, !s.toggle);
      CarriedMore(accept, s, a, Arrivals(frames, times[1..]), id, crc, payload, index, times[|times| - 1]);
    }
  }

  lemma MoreTimes(id: nat, transferId: bv8, crc: bv16, payload: seq<bv8>, index: nat, toggle: bool)
    requires id < EXT_ID_LIMIT && index < |payload|
    ensures FramesFrom(id, transferId, crc, payload, index, toggle) != []
  {
    hide FrameFrom;
  }

  lemma NoMoreArrivals(frames: seq<Frame>, times: seq<nat>)
    requires |frames| == |times| && frames == []
    ensures Arrivals(frames, times) == []
  {
  }

  lemma SlicesMeet(before: seq<bv8>, payload: seq<bv8>, a: nat, b: nat)
    requires a <= b <= |payload|
    ensures payload[a..b] + payload[b..] == payload[a..]
    ensures (before + payload[a..b]) + payload[b..] == before + payload[a..]
  {
  }

  lemma BlocksStay(s: RxState, payload: seq<bv8>, index: nat)
    requires 5 <= index && index % 7 == 5 && index + 7 < |payload|
    ensures var next := Extended(s, payload[index..index + 7]);
            && StoredAtEnd(next, payload, index + 7) == StoredAtEnd(s, payload, index)
            && BlocksAtEnd(next, payload, index + 7) == BlocksAtEnd(s, payload, index)
  {
    hide BlocksFor, Crc.Add;
    LastStartIs(|payload|, index);
    LastStartIs(|payload|, index + 7);
  }

  lemma ExtendedKeeps(s: RxState, payload: seq<bv8>, index: nat)
    requires 5 <= index && index % 7 == 5 && index + 7 < |payload|
    ensures var next := Extended(s, payload[index..index + 7]);
            && next.transferId == s.transferId && next.timestamp == s.timestamp && next.toggle == !s.toggle
            && |s.payload| + 7 <= StoredAtEnd(s, payload, index)
  {
    hide Crc.Add;
    LastStartIs(|payload|, index);
    LastStartIs(|payload|, index + 7);
  }

  // ---------------------------------------------------------------------------------------------
  // A transfer with the ID of the one the state is in the middle of

  /** Toggle bit 0, as after an even number of frames: the whole transfer is appended to what was stored of the other
      one, and its own CRC is right. So a payload is delivered that nobody has sent, unless nothing was stored. */
  lemma TransferAppended(accept: Accept, s: RxState, id: nat, signature: bv64, payload: seq<bv8>, times: seq<nat>)
    requires id < EXT_ID_LIMIT && 8 <= |payload| && Accepted(accept, id) == Some(signature)
    requires s.transferId < 32 && !s.toggle && |s.payload| < LENGTH_LIMIT
    requires |times| == |TxFrames(id, s.transferId, CrcFor(signature, payload), payload)| && Timely(times)
    requires times != []
    requires s.timestamp > 0 && Elapsed(times[0], s.timestamp) <= TRANSFER_TIMEOUT
    ensures var run := Arrivals(TxFrames(id, s.transferId, CrcFor(signature, payload), payload), times);
            var stored := |s.payload| + LastStart(|payload|);
            && Tailed(run) && FitsOrTrips(accept, Some(s), run, stored, BlocksFor(stored))
            && (stored < LENGTH_LIMIT ==>
                  Delivered(accept, Some(s), run) ==
                  [Transfer(times[|times| - 1], s.payload + payload, HeaderOf(id + FRAME_EFF), s.transferId)])
  {
    hide Serve, ServeTrips, HeaderOf, Crc.Add, Crc.AddSignature, FrameFrom, FramesFrom, Elapsed, Arrivals, Tailed,
         Smooth, Delivered, After, Accepted, TxFrames, DescriptorOf, BlocksFor;
    var t, crc := s.transferId, CrcFor(signature, payload);
    FramesUnfold(id, t, crc, payload);
    var first, frames := FrameFrom(id, t, crc, payload, 0, false), FramesFrom(id, t, crc, payload, 5, true);
    var a := Arrival(first, times[0]);
    FrameParts(id, t, crc, payload, 0, false);
    AcceptedIs(accept, id, first);
    CarryFirst(accept, s, a, id, crc, signature, payload);
    ArrivalsSplit(first, frames, times);
    FramesTailed(id, t, crc, payload, 5, true, times[1..]);
    RunFirst(accept, Some(s), a, Arrivals(frames, times[1..]));
    LastStartIs(|payload|, 5);
    if |s.payload| + 5 < LENGTH_LIMIT {
      var seed := Crc.AddSignature(0xFFFF, signature);
      var next := Extended(s.(timestamp := a.ts, payloadCrc := crc, calculatedCrc := seed), payload[..5]);
      forall i | 0 <= i < |times| ensures Elapsed(times[i], times[0]) <= TRANSFER_TIMEOUT {
        TimesPassed(times[i], times[0]);
      }
      CarryRun(accept, next, times[1..], id, crc, payload, 5);
      Crc.AddConcat(seed, payload[..5], payload[5..]);
      HeadAndRest(s.payload, payload);
    }
  }

  lemma HeadAndRest(before: seq<bv8>, payload: seq<bv8>)
    requires 5 <= |payload|
    ensures payload[..5] + payload[5..] == payload && (before + payload[..5]) + payload[5..] == before + payload
  {
  }

  /** Toggle bit 1, as after an odd number of frames: the first frame is lost, and all others are appended to what was
      stored. The CRC is compared with the one of the other transfer, over all bytes but the first five; and the time
      runs from the beginning of the other transfer. */
  lemma FirstFrameLost(accept: Accept, s: RxState, id: nat, signature: bv64, payload: seq<bv8>, times: seq<nat>)
    requires id < EXT_ID_LIMIT && 8 <= |payload| && Accepted(accept, id) == Some(signature)
    requires s.transferId < 32 && s.toggle && |s.payload| < LENGTH_LIMIT
    requires |times| == |TxFrames(id, s.transferId, CrcFor(signature, payload), payload)| && Timely(times)
    requires times != []
    requires 0 < s.timestamp <= times[0] && times[0] - s.timestamp <= TRANSFER_TIMEOUT
    ensures var run := Arrivals(TxFrames(id, s.transferId, CrcFor(signature, payload), payload), times);
            var stored, last := StoredAtEnd(s, payload, 5), times[|times| - 1];
            && Tailed(run)
            && (last - s.timestamp <= TRANSFER_TIMEOUT ==>
                  FitsOrTrips(accept, Some(s), run, stored, BlocksAtEnd(s, payload, 5)))
            && (last - s.timestamp > TRANSFER_TIMEOUT && stored < LENGTH_LIMIT ==> Smooth(accept, Some(s), run))
            && (stored < LENGTH_LIMIT ==>
                  Delivered(accept, Some(s), run) ==
                  if last - s.timestamp <= TRANSFER_TIMEOUT
                     && Crc.Add(Crc.AddSignature(0xFFFF, signature), payload[5..]) == s.payloadCrc
                  then [Transfer(last, s.payload + payload[5..], HeaderOf(id + FRAME_EFF), s.transferId)] else [])
  {
    hide Serve, ServeTrips, HeaderOf, Crc.Add, Crc.AddSignature, FrameFrom, FramesFrom, Elapsed, Arrivals, Tailed,
         Smooth, Delivered, After, Accepted, TxFrames, DescriptorOf, BlocksFor, CrcFor;
    var t, crc := s.transferId, CrcFor(signature, payload);
    FramesUnfold(id, t, crc, payload);
    var first, frames := FrameFrom(id, t, crc, payload, 0, false), FramesFrom(id, t, crc, payload, 5, true);
    var a := Arrival(first, times[0]);
    FrameParts(id, t, crc, payload, 0, false);
    AcceptedIs(accept, id, first);
    ElapsedIs(times[0], s.timestamp);
    FirstSkipped(accept, s, a, id, crc, signature, payload);
    ArrivalsSplit(first, frames, times);
    FramesTailed(id, t, crc, payload, 5, true, times[1..]);
    RunFirst(accept, Some(s), a, Arrivals(frames, times[1..]));
    MoreTimes(id, t, crc, payload, 5, true);
    var next := s.(calculatedCrc := Crc.AddSignature(0xFFFF, signature));
    ElapsedIs(times[|times| - 1], s.timestamp);
    if times[|times| - 1] - s.timestamp <= TRANSFER_TIMEOUT {
      forall i | 0 <= i < |times| ensures Elapsed(times[i], s.timestamp) <= TRANSFER_TIMEOUT {
        ElapsedIs(times[i], s.timestamp);
      }
      CarryRun(accept, next, times[1..], id, crc, payload, 5);
    } else if StoredAtEnd(s, payload, 5) < LENGTH_LIMIT {
      LateRun(accept, next, times[1..], id, crc, payload, 5);
    }
  }

  lemma ElapsedIs(now: nat, since: nat)
    requires since <= now < TIME_LIMIT
    ensures Elapsed(now, since) == now - since
  {
  }

  /** Frames behind a first one that come too late for the state: it starts over without it, and waits for the next
      ID. */
  lemma TimedOut(accept: Accept, s: RxState, a: Arrival, id: nat, crc: bv16, payload: seq<bv8>, index: nat)
    requires id < EXT_ID_LIMIT && 5 <= index < |payload| && s.transferId < 32
    requires a.frame == FrameFrom(id, s.transferId, crc, payload, index, s.toggle)
    requires Elapsed(a.ts, s.timestamp) > TRANSFER_TIMEOUT
    ensures a.frame.data != [] && !ServeTrips(accept, Some(s), a)
    ensures var o := Serve(accept, Some(s), a);
            o.delivered.None? && o.slot.Some? && o.slot.value.transferId != s.transferId
  {
    hide IsStart, IsEnd, Toggle, TransferIdOf, Tail, Body, TailByte, FrameFrom, Crc.Add, Elapsed, NextId,
         ForwardDistance;
    FrameParts(id, s.transferId, crc, payload, index, s.toggle);
    TailByteFields(false, ChunkEnd(index, |payload|) == |payload|, s.toggle, s.transferId);
    OneAhead(s.transferId);
  }

  lemma {:induction false} LateRun(accept: Accept, s: RxState, times: seq<nat>, id: nat, crc: bv16, payload: seq<bv8>,
                                   index: nat)
    requires id < EXT_ID_LIMIT && 5 <= index && index % 7 == 5 && index < |payload| && s.transferId < 32
    requires StoredAtEnd(s, payload, index) < LENGTH_LIMIT
    requires |times| == |FramesFrom(id, s.transferId, crc, payload, index, s.toggle)| && times != []
    requires s.timestamp > 0 && Elapsed(times[|times| - 1], s.timestamp) > TRANSFER_TIMEOUT
    ensures var run := Arrivals(FramesFrom(id, s.transferId, crc, payload, index, s.toggle), times);
            Tailed(run) && Smooth(accept, Some(s), run) && Delivered(accept, Some(s), run) == []
    decreases |payload| - index
  {
    hide Serve, ServeTrips, HeaderOf, Crc.Add, FrameFrom, FramesFrom, Elapsed, Arrivals, Tailed, Smooth, Delivered,
         After, StoredAtEnd, BlocksAtEnd, Extended, LastStart;
    var t := s.transferId;
    LastStartIs(|payload|, index);
    FramesFromIs(id, t, crc, payload, index, s.toggle);
    var f, end := FrameFrom(id, t, crc, payload, index, s.toggle), ChunkEnd(index, |payload|);
    var frames := FramesFrom(id, t, crc, payload, end, !s.toggle);
    var a := Arrival(f, times[0]);
    ArrivalsSplit(f, frames, times);
    FramesTailed(id, t, crc, payload, end, !s.toggle, times[1..]);
    RunFirst(accept, Some(s), a, Arrivals(frames, times[1..]));
    if Elapsed(times[0], s.timestamp) > TRANSFER_TIMEOUT {
      TimedOut(accept, s, a, id, crc, payload, index);
      IgnoredRun(accept, Serve(accept, Some(s), a).slot.value, times[1..], id, t, crc, payload, end, !s.toggle);
    } else {
      FramesFromIs(id, t, crc, payload, end, !s.toggle);
      assert |times| > 1;
      CarryMiddle(accept, s, a, id, crc, payload, index);
      BlocksStay(s, payload, index);
      ExtendedKeeps(s, payload, index);
      LateRun(accept, Extended(s, payload[index..index + 7]), times[1..], id, crc, payload, index + 7);
    }
  }

  // ---------------------------------------------------------------------------------------------
  // A payload that nobody has sent

  /** The first two frames of a transfer. */
  function TwoFrames(id: nat, transferId: bv8, signature: bv64, payload: seq<bv8>): (frames: seq<Frame>)
    requires id < EXT_ID_LIMIT && 12 < |payload|
    ensures |frames| == 2
  {
    FirstTwo(id, transferId, CrcFor(signature, payload), payload);
    TxFrames(id, transferId, CrcFor(signature, payload), payload)[..2]
  }

  lemma FirstTwo(id: nat, transferId: bv8, crc: bv16, payload: seq<bv8>)
    requires id < EXT_ID_LIMIT && 12 < |payload|
    ensures var frames := TxFrames(id, transferId, crc, payload);
            && |frames| >= 2 && frames[0] == FrameFrom(id, transferId, crc, payload, 0, false)
            && frames[1] == FrameFrom(id, transferId, crc, payload, 5, true)
  {
    hide FrameFrom, FramesFrom;
    FramesUnfold(id, transferId, crc, payload);
    FramesFromIs(id, transferId, crc, payload, 5, true);
  }

  lemma NeverFull(index: nat)
    requires index % 7 == 5
    ensures !LastBlockFull(12 + index, BlocksFor(12 + index))
  {
    hide BlocksFor;
  }

  lemma TwoStep(accept: Accept, slot: Slot, id: nat, transferId: bv8, signature: bv64, payload: seq<bv8>,
                times: seq<nat>)
    requires id < EXT_ID_LIMIT && transferId < 32 && 12 < |payload| && Accepted(accept, id) == Some(signature)
    requires SlotFor(slot, id + FRAME_EFF) && |times| == 2 && times[0] > 0 && Ready(slot, transferId, times[0])
    requires Elapsed(times[1], times[0]) <= TRANSFER_TIMEOUT
    ensures var run := Arrivals(TwoFrames(id, transferId, signature, payload), times);
            && Tailed(run) && Smooth(accept, slot, run) && Delivered(accept, slot, run) == []
            && var end := After(accept, slot, run);
               && end.Some? && end.value.payload == payload[..12] && end.value.timestamp == times[0]
               && end.value.transferId == transferId && !end.value.toggle
  {
    hide Serve, ServeTrips, HeaderOf, Crc.Add, Crc.AddSignature, FrameFrom, Elapsed, Ready, DescriptorOf, BlocksFor,
         CrcFor, SlotFor, Accepted, TxFrames;
    var crc, seed := CrcFor(signature, payload), Crc.AddSignature(0xFFFF, signature);
    var a := Arrival(FrameFrom(id, transferId, crc, payload, 0, false), times[0]);
    var b := Arrival(FrameFrom(id, transferId, crc, payload, 5, true), times[1]);
    FrameParts(id, transferId, crc, payload, 0, false);
    FirstTwo(id, transferId, crc, payload);
    AcceptedIs(accept, id, a.frame);
    FirstStep(accept, slot, a, id, transferId, crc, signature, payload);
    var next := Serve(accept, slot, a).slot;
    MiddleStep(accept, next.value, b, id, transferId, crc, seed, payload, 5, true);
    RunFirst(accept, next, b, []);
    RunFirst(accept, slot, a, [b]);
    assert Arrivals(TwoFrames(id, transferId, signature, payload), times) == [a] + ([b] + []);
    assert [b] == [b] + [];
  }

  /** After two frames of a transfer p, its sender starts over with a transfer q of the same ID: from any slot ready for
      p, no assertion fails, all checks pass, and what is delivered is the beginning of p followed by q. */
  lemma MixedDelivery(accept: Accept, slot: Slot, id: nat, transferId: bv8, signature: bv64, p: seq<bv8>,
                      begun: seq<nat>,
                      q: seq<bv8>, times: seq<nat>)
    requires id < EXT_ID_LIMIT && transferId < 32 && Accepted(accept, id) == Some(signature)
    requires 12 < |p| && 8 <= |q| && 12 + LastStart(|q|) < LENGTH_LIMIT
    requires SlotFor(slot, id + FRAME_EFF) && |begun| == 2 && begun[0] > 0 && Ready(slot, transferId, begun[0])
    requires Elapsed(begun[1], begun[0]) <= TRANSFER_TIMEOUT
    requires |times| == |TxFrames(id, transferId, CrcFor(signature, q), q)| && Timely(times) && times != []
    requires Elapsed(times[0], begun[0]) <= TRANSFER_TIMEOUT
    ensures var run := Arrivals(TwoFrames(id, transferId, signature, p), begun)
                       + Arrivals(TxFrames(id, transferId, CrcFor(signature, q), q), times);
            && Tailed(run) && Smooth(accept, slot, run)
            && Delivered(accept, slot, run) ==
               [Transfer(times[|times| - 1], p[..12] + q, HeaderOf(id + FRAME_EFF), transferId)]
  {
    hide HeaderOf, TxFrames, TwoFrames, CrcFor, Timely, Ready, Accepted, SlotFor, Arrivals, Tailed, Smooth, Delivered,
         After, Elapsed, BlocksFor;
    var first := Arrivals(TwoFrames(id, transferId, signature, p), begun);
    TwoStep(accept, slot, id, transferId, signature, p, begun);
    var s := After(accept, slot, first).value;
    TransferAppended(accept, s, id, signature, q, times);
    NeverFull(LastStart(|q|));
    RunsCompose(accept, slot, first, Arrivals(TxFrames(id, transferId, CrcFor(signature, q), q), times));
    assert [] + Delivered(accept, Some(s), Arrivals(TxFrames(id, transferId, CrcFor(signature, q), q), times)) ==
           Delivered(accept, Some(s), Arrivals(TxFrames(id, transferId, CrcFor(signature, q), q), times));
  }
}

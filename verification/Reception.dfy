/** What libcanard's reception does to one transfer state and to the whole instance, on logical values: payloads are
    byte sequences, however they are scattered over head, blocks and frame. */
module Reception {
  import opened CanFrames
  import Crc = TransferCrc

  datatype Option<+T> = None | Some(value: T)

  const HEAD_SIZE := 6
  const BLOCK_SIZE := 28
  const TRANSFER_TIMEOUT := 2_000_000
  const LENGTH_LIMIT := 1024            // the payload length is a 10-bit counter
  const TIME_LIMIT := 0x1_0000_0000_0000_0000

  /** A reception state; `blocks` is the number of buffer blocks it holds. */
  datatype RxState = RxState(desc: nat, timestamp: nat, payload: seq<bv8>, blocks: nat,
                             payloadCrc: bv16, calculatedCrc: bv16, transferId: bv8, toggle: bool)

  /** What the application is handed. */
  datatype Transfer = Transfer(timestamp: nat, payload: seq<bv8>, header: Header, transferId: bv8)

  /** The application's choice which transfers to receive, with the signature of their data type. */
  type Accept = (nat, TransferType, nat) -> Option<bv64>

  // ---------------------------------------------------------------------------------------------
  // Tail byte and transfer ID

  predicate IsStart(tail: bv8) { tail & 0x80 != 0 }

  predicate IsEnd(tail: bv8) { tail & 0x40 != 0 }

  predicate Toggle(tail: bv8) { tail & 0x20 != 0 }

  function TransferIdOf(tail: bv8): bv8 { tail & 0x1F }

  function TailByte(start: bool, end: bool, toggle: bool, transferId: bv8): bv8 {
    (if start then 0x80 else 0) | (if end then 0x40 else 0) | (if toggle then 0x20 else 0) | (transferId & 0x1F)
  }

  lemma TailByteFields(start: bool, end: bool, toggle: bool, transferId: bv8)
    requires transferId < 32
    ensures var t := TailByte(start, end, toggle, transferId);
            IsStart(t) == start && IsEnd(t) == end && Toggle(t) == toggle && TransferIdOf(t) == transferId
  {
  }

  /** The fields of a tail byte, in numbers. */
  lemma TailFields(tail: bv8)
    ensures IsStart(tail) <==> tail as nat / 128 == 1
    ensures IsEnd(tail) <==> tail as nat / 64 % 2 == 1
    ensures Toggle(tail) <==> tail as nat / 32 % 2 == 1
    ensures TransferIdOf(tail) as nat == tail as nat % 32
  {
    hide IsStart, IsEnd, Toggle, TransferIdOf;
    StartBit(tail);
    EndBit(tail);
    ToggleBit(tail);
    IdBits(tail);
  }

  lemma StartBit(tail: bv8)
    ensures IsStart(tail) <==> tail as nat / 128 == 1
  {
  }

  lemma EndBit(tail: bv8)
    ensures IsEnd(tail) <==> tail as nat / 64 % 2 == 1
  {
  }

  lemma ToggleBit(tail: bv8)
    ensures Toggle(tail) <==> tail as nat / 32 % 2 == 1
  {
  }

  lemma IdBits(tail: bv8)
    ensures TransferIdOf(tail) as nat == tail as nat % 32
  {
  }

  /** The 5-bit successor. */
  function NextId(transferId: bv8): bv8 { (transferId + 1) & 0x1F }

  function ForwardDistance(a: bv8, b: bv8): bv8 {
    if b < a then b - a + 32 else b - a
  }

  /** Unsigned 64-bit difference of two timestamps. */
  function Elapsed(now: nat, since: nat): nat {
    (now - since) % TIME_LIMIT
  }

  /** Time that has passed, on a clock that wraps around at 2^64. */
  lemma ElapsedIs(now: nat, since: nat)
    requires now < TIME_LIMIT && since < TIME_LIMIT
    ensures Elapsed(now, since) == if since <= now then now - since else 0x1_0000_0000_0000_0000 - (since - now)
  {
  }

  // ---------------------------------------------------------------------------------------------
  // Storage

  function Max(a: nat, b: nat): nat { if a < b then b else a }

  /** Blocks needed for a payload whose first 6 bytes are in the head. */
  function BlocksFor(length: nat): nat {
    if length <= HEAD_SIZE then 0 else (length - HEAD_SIZE + BLOCK_SIZE - 1) / BLOCK_SIZE
  }

  /** Blocks held after appending `count` bytes to `length`: once the head is full there is always a block to write
      to, even if there is nothing to write. */
  function BlocksAfter(length: nat, count: nat): nat {
    if length < HEAD_SIZE && length + count <= HEAD_SIZE then 0
    else Max(BlocksFor(length + count), (Max(length, HEAD_SIZE) - HEAD_SIZE) / BLOCK_SIZE + 1)
  }

  /** The blocks held are those the length needs, save for one spare after an empty middle frame. */
  predicate BlocksOk(length: nat, blocks: nat) {
    || blocks == BlocksFor(length)
    || (length >= HEAD_SIZE && (length - HEAD_SIZE) % BLOCK_SIZE == 0
       && blocks == (length - HEAD_SIZE) / BLOCK_SIZE + 1)
  }

  predicate Healthy(s: RxState) {
    |s.payload| < LENGTH_LIMIT && s.transferId < 32 && BlocksOk(|s.payload|, s.blocks)
  }

  // ---------------------------------------------------------------------------------------------
  // One frame, one state

  datatype Outcome = Outcome(state: RxState, delivered: Option<Transfer>)

  function NewState(desc: nat): RxState {
    RxState(desc, 0, [], 0, 0, 0, 0, false)
  }

  function Cleared(s: RxState): RxState {
    s.(payload := [], blocks := 0)
  }

  /** prepareForNextTransfer, after the payload was released. */
  function Prepared(s: RxState): RxState {
    Cleared(s).(transferId := NextId(s.transferId), toggle := false)
  }

  predicate NeedRestart(s: RxState, tail: bv8, ts: nat) {
    || s.timestamp == 0
    || Elapsed(ts, s.timestamp) > TRANSFER_TIMEOUT
    || (IsStart(tail) && ForwardDistance(s.transferId, TransferIdOf(tail)) > 1)
  }

  function Restarted(s: RxState, tail: bv8): RxState {
    Cleared(s).(transferId := TransferIdOf(tail), toggle := false)
  }

  /** The state the frame's body is applied to. */
  function Current(s: RxState, tail: bv8, ts: nat): (r: RxState)
    ensures r.desc == s.desc
  {
    if NeedRestart(s, tail, ts) then Restarted(s, tail) else s
  }

  function Tail(f: Frame): bv8
    requires f.data != []
  {
    f.data[|f.data| - 1]
  }

  function Body(f: Frame): seq<bv8>
    requires f.data != []
  {
    f.data[..|f.data| - 1]
  }

  /** What a first or middle frame stores; a first frame starts with the transfer CRC. */
  function Stored(f: Frame): seq<bv8>
    requires f.data != []
  {
    if !IsStart(Tail(f)) then Body(f) else if |f.data| <= 3 then [] else f.data[2..|f.data| - 1]
  }

  function FrameCrc(f: Frame): bv16
    requires |f.data| >= 2
  {
    (f.data[0] as bv16) | ((f.data[1] as bv16) << 8)
  }

  /** One frame on a state that has `free` blocks to draw on. */
  function Advance(s: RxState, f: Frame, ts: nat, free: nat): (o: Outcome)
    requires f.data != []
    ensures o.state.desc == s.desc && o.state.blocks <= s.blocks + free
  {
    var r := Current(s, Tail(f), ts);
    if NeedRestart(s, Tail(f), ts) && !IsStart(Tail(f)) then
      Outcome(r.(transferId := NextId(r.transferId)), None)      // missed the first frame
    else
      Apply(r, f, ts, free + s.blocks - r.blocks)
  }

  /** The body of the frame, once the state was restarted if need be. */
  function Apply(r: RxState, f: Frame, ts: nat, free: nat): (o: Outcome)
    requires f.data != []
    ensures o.state.desc == r.desc && o.state.blocks <= r.blocks + free
  {
    var tail := Tail(f);
    if IsStart(tail) && IsEnd(tail) then
      Outcome(Prepared(r.(timestamp := ts)), Some(Transfer(ts, Body(f), HeaderOf(f.id), TransferIdOf(tail))))
    else if Toggle(tail) != r.toggle || TransferIdOf(tail) != r.transferId then
      Outcome(r, None)
    else if !IsEnd(tail) then
      if IsStart(tail) && |f.data| <= 3 then Outcome(r, None)
      else Outcome(Append(if IsStart(tail) then r.(timestamp := ts) else r, f, free), None)
    else
      Finish(r, f, ts)
  }

  /** The last frame of a multi-frame transfer: it is delivered if its CRC is right. */
  function Finish(r: RxState, f: Frame, ts: nat): Outcome
    requires f.data != []
  {
    var crc := Crc.Add(r.calculatedCrc, Body(f));
    Outcome(Prepared(r.(calculatedCrc := crc)),
            if crc == r.payloadCrc
            then Some(Transfer(ts, r.payload + Body(f), HeaderOf(f.id), TransferIdOf(Tail(f)))) else None)
  }

  /** Stores a first or middle frame, or gives the transfer up if the pool runs dry. */
  function Append(r: RxState, f: Frame, free: nat): RxState
    requires f.data != [] && (IsStart(Tail(f)) ==> |f.data| > 3)
  {
    var bytes := Stored(f);
    if BlocksAfter(|r.payload|, |bytes|) > r.blocks + free then Prepared(r)
    else r.(payload := r.payload + bytes, blocks := BlocksAfter(|r.payload|, |bytes|), toggle := !r.toggle,
            payloadCrc := if IsStart(Tail(f)) then FrameCrc(f) else r.payloadCrc,
            calculatedCrc := Crc.Add(r.calculatedCrc, bytes))
  }

  /** The frames that trip an internal assertion, or push the payload past the 10-bit length counter:
      a single-frame transfer over half-received blocks, an end frame when the last block is exactly full. */
  predicate Trips(s: RxState, f: Frame, ts: nat)
    requires f.data != []
  {
    (NeedRestart(s, Tail(f), ts) ==> IsStart(Tail(f))) && ApplyTrips(Current(s, Tail(f), ts), f)
  }

  predicate ApplyTrips(r: RxState, f: Frame)
    requires f.data != []
  {
    var tail := Tail(f);
    if IsStart(tail) && IsEnd(tail) then r.blocks > 0
    else if Toggle(tail) != r.toggle || TransferIdOf(tail) != r.transferId then false
    else if !IsEnd(tail) then |r.payload| + |Stored(f)| >= LENGTH_LIMIT
    else r.blocks > 0 && |r.payload| == HEAD_SIZE + BLOCK_SIZE * r.blocks
  }

  /** When a frame restarts a state, in numbers: the state is new, or older than 2 s, or sees the start of a transfer
      whose ID is neither the expected one nor the next after it. */
  lemma RestartInNumbers(s: RxState, tail: bv8, ts: nat)
    requires s.transferId < 32 && ts < TIME_LIMIT && s.timestamp < TIME_LIMIT
    ensures var ahead := (tail as nat % 32 - s.transferId as nat) % 32;
            NeedRestart(s, tail, ts) <==>
              || s.timestamp == 0
              || (if s.timestamp <= ts then ts - s.timestamp
                 else 0x1_0000_0000_0000_0000 - (s.timestamp - ts)) > 2_000_000
              || (tail as nat >= 128 && ahead != 0 && ahead != 1)
  {
    hide IsStart, TransferIdOf, ForwardDistance, Elapsed;
    ElapsedIs(ts, s.timestamp);
    TailFields(tail);
    IdFits(tail);
    DistanceNumber(s.transferId, TransferIdOf(tail));
  }

  lemma IdFits(tail: bv8)
    ensures TransferIdOf(tail) < 32
  {
  }

  lemma DistanceNumber(a: bv8, b: bv8)
    requires a < 32 && b < 32
    ensures ForwardDistance(a, b) as nat == (b as nat - a as nat) % 32
  {
    hide ForwardDistance;
    if a <= b {
      Ahead(a, b);
    } else {
      Around(a, b);
    }
  }

  lemma Ahead(a: bv8, b: bv8)
    requires a <= b < 32
    ensures ForwardDistance(a, b) as nat == b as nat - a as nat && 0 <= b as nat - a as nat < 32
  {
  }

  lemma Around(a: bv8, b: bv8)
    requires b < a < 32
    ensures ForwardDistance(a, b) as nat == b as nat - a as nat + 32 && -32 < b as nat - a as nat < 0
  {
  }

  /** A first frame of up to three bytes, CRC and tail byte included, is ignored, but for a restart. */
  lemma ShortStart(s: RxState, f: Frame, ts: nat, free: nat)
    requires 1 <= |f.data| <= 3 && 128 <= Tail(f) as nat && Tail(f) as nat / 64 % 2 == 0
    ensures Advance(s, f, ts, free) == Outcome(Current(s, Tail(f), ts), None)
  {
    hide IsStart, IsEnd, Toggle, TransferIdOf;
    TailFields(Tail(f));
  }

  /** When the pool runs dry the transfer is given up: its blocks are free, and the state waits for the next one. */
  lemma OutOfBlocks(s: RxState, f: Frame, ts: nat, free: nat)
    requires f.data != [] && Tail(f) as nat / 64 % 2 == 0 && s.transferId < 32
    requires s.toggle == (Tail(f) as nat / 32 % 2 == 1) && s.transferId as nat == Tail(f) as nat % 32
    requires !NeedRestart(s, Tail(f), ts) && (Tail(f) as nat >= 128 ==> |f.data| > 3)
    requires BlocksAfter(|s.payload|, |Stored(f)|) > s.blocks + free
    ensures var o := Advance(s, f, ts, free);
            && o.delivered.None? && o.state.payload == [] && o.state.blocks == 0 && !o.state.toggle
            && o.state.transferId as nat == (s.transferId as nat + 1) % 32
  {
    hide IsStart, IsEnd, Toggle, TransferIdOf, NeedRestart, BlocksAfter, Stored, NextId;
    TailFields(Tail(f));
    NextNumber(s.transferId);
  }

  lemma NextNumber(transferId: bv8)
    requires transferId < 32
    ensures NextId(transferId) as nat == (transferId as nat + 1) % 32
  {
  }

  /** A state that has to restart on a later frame of a transfer has missed the first one: it waits for the transfer
      after it. */
  lemma MissedStart(s: RxState, f: Frame, ts: nat, free: nat)
    requires f.data != [] && Tail(f) as nat < 128 && NeedRestart(s, Tail(f), ts)
    ensures var o := Advance(s, f, ts, free);
            && o.delivered.None? && o.state.payload == [] && o.state.blocks == 0 && !o.state.toggle
            && o.state.transferId as nat == (Tail(f) as nat + 1) % 32
  {
    hide IsStart, TransferIdOf, NeedRestart, NextId, Apply;
    TailFields(Tail(f));
    IdFits(Tail(f));
    NextNumber(TransferIdOf(Tail(f)));
    PlusOne(Tail(f) as nat, TransferIdOf(Tail(f)) as nat);
  }

  lemma PlusOne(n: nat, id: nat)
    requires id == n % 32
    ensures (id + 1) % 32 == (n + 1) % 32
  {
    Field(n + 1, 32, n / 32 + (id + 1) / 32, (id + 1) % 32);
  }

  /** A frame that is not a single-frame transfer and has another toggle bit or transfer ID than the state expects is
      ignored, but for a restart. */
  lemma OutOfStep(s: RxState, f: Frame, ts: nat, free: nat)
    requires f.data != [] && !NeedRestart(s, Tail(f), ts) && s.transferId < 32
    requires var t := Tail(f) as nat;
             && t < 192
             && ((t / 32 % 2 == 1) != s.toggle || t % 32 != s.transferId as nat)
    ensures Advance(s, f, ts, free) == Outcome(s, None)
  {
    hide IsStart, IsEnd, Toggle, TransferIdOf, NeedRestart;
    TailFields(Tail(f));
  }

  lemma HealthyCurrent(s: RxState, tail: bv8, ts: nat)
    requires Healthy(s)
    ensures Healthy(Current(s, tail, ts))
  {
    assert TransferIdOf(tail) < 32;
  }

  // ---------------------------------------------------------------------------------------------
  // The instance

  /** The logical value of a CanardInstance. `log` lists the transfers handed to the application so far. */
  datatype Node = Node(nodeId: nat, free: nat, tx: seq<Frame>, rx: seq<RxState>, log: seq<Transfer>)

  function Find(rx: seq<RxState>, desc: nat): (i: nat)
    ensures i <= |rx| && (forall j | 0 <= j < i :: rx[j].desc != desc) && (i < |rx| ==> rx[i].desc == desc)
  {
    if rx == [] || rx[0].desc == desc then 0 else 1 + Find(rx[1..], desc)
  }

  lemma FindIs(rx: seq<RxState>, desc: nat, j: nat)
    requires j <= |rx| && (forall k | 0 <= k < j :: rx[k].desc != desc) && (j < |rx| ==> rx[j].desc == desc)
    ensures Find(rx, desc) == j
  {
  }

  /** Extended data frames with a tail byte, broadcast or addressed to this node. */
  predicate Relevant(nodeId: nat, f: Frame) {
    && IsExtended(f.id) && !IsRemote(f.id) && !IsError(f.id) && f.data != []
    && (ExtractTransferType(f.id) != Broadcast ==> HeaderOf(f.id).dest == nodeId)
  }

  /** Frames that do not concern this node, in numbers: base or remote frames, error frames, frames without a tail byte,
      and requests and responses to another node. */
  predicate Ignored(nodeId: nat, f: Frame) {
    || f.id < 0x8000_0000 || f.id / 0x4000_0000 % 2 == 1 || f.id / 0x2000_0000 % 2 == 1 || |f.data| == 0
    || (f.id / 0x80 % 2 == 1 && f.id / 0x100 % 0x80 != nodeId)
  }

  lemma IgnoredIff(nodeId: nat, f: Frame)
    ensures Ignored(nodeId, f) <==> !Relevant(nodeId, f)
  {
  }

  function Signature(accept: Accept, f: Frame): Option<bv64> {
    var h := HeaderOf(f.id);
    accept(h.dataTypeId, h.kind, h.source)
  }

  /** Puts state i through the frame. */
  function Feed(n: Node, i: nat, f: Frame, ts: nat): Node
    requires i < |n.rx| && f.data != []
  {
    var o := Advance(n.rx[i], f, ts, n.free);
    n.(rx := n.rx[i := o.state], free := n.free + n.rx[i].blocks - o.state.blocks,
       log := n.log + if o.delivered.Some? then [o.delivered.value] else [])
  }

  /** A start frame creates the state it misses and restarts the CRC. */
  function Opened(n: Node, desc: nat, signature: bv64): Node
    requires Find(n.rx, desc) < |n.rx| || n.free > 0
  {
    var i := Find(n.rx, desc);
    var crc := Crc.AddSignature(0xFFFF, signature);
    if i < |n.rx| then n.(rx := n.rx[i := n.rx[i].(calculatedCrc := crc)])
    else n.(rx := [NewState(desc).(calculatedCrc := crc)] + n.rx, free := n.free - 1)
  }

  /** canardHandleRxFrame. */
  function Handle(accept: Accept, n: Node, f: Frame, ts: nat): Node {
    if !Relevant(n.nodeId, f) then n
    else
      var desc := DescriptorOf(f.id);
      var i := Find(n.rx, desc);
      if IsStart(Tail(f)) then
        if Signature(accept, f).None? || (i == |n.rx| && n.free == 0) then n
        else Feed(Opened(n, desc, Signature(accept, f).value), if i < |n.rx| then i else 0, f, ts)
      else if i == |n.rx| then n
      else Feed(n, i, f, ts)
  }

  lemma IgnoredHandled(accept: Accept, n: Node, f: Frame, ts: nat)
    requires Ignored(n.nodeId, f)
    ensures Handle(accept, n, f, ts) == n
  {
    IgnoredIff(n.nodeId, f);
  }

  // ---------------------------------------------------------------------------------------------
  // Only what is wanted

  /** The application has accepted transfers of this kind, and the transfer is for everyone or for this node. */
  predicate Wanted(accept: Accept, nodeId: nat, h: Header) {
    accept(h.dataTypeId, h.kind, h.source).Some? && (h.kind != Broadcast ==> h.dest == nodeId)
  }

  /** Every state is that of wanted transfers. */
  ghost predicate StatesWanted(accept: Accept, nodeId: nat, rx: seq<RxState>) {
    forall i | 0 <= i < |rx| :: DescriptorWanted(accept, nodeId, rx[i].desc)
  }

  ghost predicate DescriptorWanted(accept: Accept, nodeId: nat, desc: nat) {
    exists id: Word :: DescriptorOf(id) == desc && Wanted(accept, nodeId, HeaderOf(id))
  }

  lemma WantedByDescriptor(accept: Accept, nodeId: nat, id: Word)
    requires DescriptorWanted(accept, nodeId, DescriptorOf(id))
    ensures Wanted(accept, nodeId, HeaderOf(id))
  {
    hide HeaderOf, DescriptorOf;
    var other: Word :| DescriptorOf(other) == DescriptorOf(id) && Wanted(accept, nodeId, HeaderOf(other));
    DescriptorInjective(id, other);
  }

  lemma DeliveredHeader(s: RxState, f: Frame, ts: nat, free: nat)
    requires f.data != []
    ensures var o := Advance(s, f, ts, free); o.delivered.Some? ==> o.delivered.value.header == HeaderOf(f.id)
  {
    hide HeaderOf, Append, Tail, IsStart, IsEnd, Toggle, TransferIdOf;
  }

  /** The log has grown by wanted transfers only. */
  predicate LogWanted(accept: Accept, nodeId: nat, log: seq<Transfer>, log': seq<Transfer>) {
    log <= log' && forall k | |log| <= k < |log'| :: Wanted(accept, nodeId, log'[k].header)
  }

  lemma FeedWanted(accept: Accept, n: Node, i: nat, f: Frame, ts: nat)
    requires i < |n.rx| && f.data != [] && n.rx[i].desc == DescriptorOf(f.id) && StatesWanted(accept, n.nodeId, n.rx)
    ensures var m := Feed(n, i, f, ts);
            StatesWanted(accept, n.nodeId, m.rx) && LogWanted(accept, n.nodeId, n.log, m.log) && m.nodeId == n.nodeId
  {
    hide HeaderOf, DescriptorOf, Advance, DescriptorWanted;
    DeliveredHeader(n.rx[i], f, ts, n.free);
    WantedByDescriptor(accept, n.nodeId, f.id);
  }

  lemma OpenedWanted(accept: Accept, n: Node, desc: nat, signature: bv64)
    requires Find(n.rx, desc) < |n.rx| || n.free > 0
    requires DescriptorWanted(accept, n.nodeId, desc) && StatesWanted(accept, n.nodeId, n.rx)
    ensures var o := Opened(n, desc, signature); var i := Find(n.rx, desc); var j := if i < |n.rx| then i else 0;
            && StatesWanted(accept, n.nodeId, o.rx) && o.log == n.log && o.nodeId == n.nodeId
            && j < |o.rx| && o.rx[j].desc == desc
  {
    hide DescriptorWanted, Crc.AddSignature;
  }

  /** A frame never makes a node hand over, or remember, what is not wanted. */
  lemma HandleWanted(accept: Accept, n: Node, f: Frame, ts: nat)
    requires StatesWanted(accept, n.nodeId, n.rx)
    ensures var m := Handle(accept, n, f, ts);
            StatesWanted(accept, n.nodeId, m.rx) && LogWanted(accept, n.nodeId, n.log, m.log) && m.nodeId == n.nodeId
  {
    hide StatesWanted, Feed, Opened, DescriptorOf, HeaderOf, IsStart, Tail, IsExtended, IsRemote, IsError;
    if Relevant(n.nodeId, f) {
      var desc, signature := DescriptorOf(f.id), Signature(accept, f);
      var i := Find(n.rx, desc);
      if IsStart(Tail(f)) {
        if signature.Some? && (i < |n.rx| || n.free > 0) {
          StartWanted(accept, n.nodeId, f);
          OpenedWanted(accept, n, desc, signature.value);
          FeedWanted(accept, Opened(n, desc, signature.value), if i < |n.rx| then i else 0, f, ts);
        }
      } else if i < |n.rx| {
        FeedWanted(accept, n, i, f, ts);
      }
    }
  }

  lemma StartWanted(accept: Accept, nodeId: nat, f: Frame)
    requires Relevant(nodeId, f) && Signature(accept, f).Some?
    ensures DescriptorWanted(accept, nodeId, DescriptorOf(f.id))
  {
    hide DescriptorOf;
    assert HeaderOf(f.id).kind == ExtractTransferType(f.id);
    assert Wanted(accept, nodeId, HeaderOf(f.id));
  }

  /** The frame would trip an assertion of the instance. */
  predicate Faults(accept: Accept, n: Node, f: Frame, ts: nat) {
    && Relevant(n.nodeId, f)
    && (IsStart(Tail(f)) ==> Signature(accept, f).Some?)
    && Find(n.rx, DescriptorOf(f.id)) < |n.rx|
    && Trips(n.rx[Find(n.rx, DescriptorOf(f.id))], f, ts)
  }

  /** Blocks taken by reception: one for each state, and its buffers. */
  function Taken(rx: seq<RxState>): nat {
    if rx == [] then 0 else 1 + rx[0].blocks + Taken(rx[1..])
  }

  predicate Unique(rx: seq<RxState>) {
    forall i, j | 0 <= i < j < |rx| :: rx[i].desc != rx[j].desc
  }

  lemma UniqueEmpty()
    ensures Unique([])
  {
  }

  lemma UniqueUpdate(rx: seq<RxState>, i: nat, s: RxState)
    requires Unique(rx) && i < |rx| && s.desc == rx[i].desc
    ensures Unique(rx[i := s])
  {
  }

  lemma UniquePrepend(rx: seq<RxState>, s: RxState)
    requires Unique(rx) && Find(rx, s.desc) == |rx|
    ensures Unique([s] + rx)
  {
    forall i, j | 0 <= i < j < |[s] + rx| ensures ([s] + rx)[i].desc != ([s] + rx)[j].desc {
      if i == 0 {
        assert rx[j - 1].desc != s.desc;
      }
    }
  }

  predicate AllHealthy(rx: seq<RxState>) {
    forall i | 0 <= i < |rx| :: Healthy(rx[i])
  }

  lemma HealthyState(rx: seq<RxState>, i: nat)
    requires i < |rx|
    ensures AllHealthy(rx) ==> Healthy(rx[i])
  {
  }

  /** The state of this descriptor, if there is one, is healthy. */
  predicate OwnHealthy(rx: seq<RxState>, desc: nat) {
    var i := Find(rx, desc);
    i < |rx| ==> Healthy(rx[i])
  }

  /** Every state but that of one descriptor is as before, and in its place; that of the descriptor may be new. */
  predicate Contained(rx: seq<RxState>, rx': seq<RxState>, desc: nat) {
    && (|rx'| == |rx| || (|rx'| == |rx| + 1 && rx'[0].desc == desc))
    && forall k | 0 <= k < |rx| ::
         var s := rx'[k + |rx'| - |rx|]; s.desc == rx[k].desc && (rx[k].desc != desc ==> s == rx[k])
  }

  lemma Untouched(rx: seq<RxState>, desc: nat)
    ensures Contained(rx, rx, desc)
  {
  }

  lemma OwnReplaced(rx: seq<RxState>, desc: nat, s: RxState)
    requires Find(rx, desc) < |rx| && s.desc == desc
    ensures Contained(rx, rx[Find(rx, desc) := s], desc)
  {
  }

  lemma OpenedContained(n: Node, desc: nat, signature: bv64, s: RxState)
    requires Find(n.rx, desc) < |n.rx| || n.free > 0
    requires s.desc == desc
    ensures var i := Find(n.rx, desc); var o := Opened(n, desc, signature); var j := if i < |n.rx| then i else 0;
            j < |o.rx| && o.rx[j].desc == desc && Contained(n.rx, o.rx[j := s], desc)
  {
    hide Crc.AddSignature, Contained;
    var i, o := Find(n.rx, desc), Opened(n, desc, signature);
    if i < |n.rx| {
      assert o.rx[i := s] == n.rx[i := s];
      OwnReplaced(n.rx, desc, s);
    } else {
      assert o.rx[0 := s] == [s] + n.rx;
      NewInFront(n.rx, desc, s);
    }
  }

  lemma NewInFront(rx: seq<RxState>, desc: nat, s: RxState)
    requires s.desc == desc
    ensures Contained(rx, [s] + rx, desc)
  {
  }

  // ---------------------------------------------------------------------------------------------
  // Health is kept

  lemma BlocksAfterOk(n: nat, count: nat)
    ensures BlocksOk(n + count, BlocksAfter(n, count))
  {
    if n + count > HEAD_SIZE {
      var m := Max(n, HEAD_SIZE) - HEAD_SIZE;
      if count == 0 && m % BLOCK_SIZE != 0 {
        Field(m + BLOCK_SIZE - 1, BLOCK_SIZE, m / BLOCK_SIZE + 1, m % BLOCK_SIZE - 1);
      } else if count > 0 {
        BlocksGrow(m, n + count - HEAD_SIZE);
      }
    }
  }

  lemma BlocksGrow(m: nat, k: nat)
    requires m < k
    ensures m / BLOCK_SIZE + 1 <= (k + BLOCK_SIZE - 1) / BLOCK_SIZE
  {
  }

  /** A frame that trips nothing leaves a healthy state healthy. */
  lemma AdvanceHealthy(s: RxState, f: Frame, ts: nat, free: nat)
    requires f.data != [] && Healthy(s) && !Trips(s, f, ts)
    ensures Healthy(Advance(s, f, ts, free).state)
  {
    hide Healthy, Apply, ApplyTrips, IsStart, Tail, NextId, NeedRestart;
    HealthyCurrent(s, Tail(f), ts);
    var r := Current(s, Tail(f), ts);
    if NeedRestart(s, Tail(f), ts) && !IsStart(Tail(f)) {
      HealthyWithId(r);
    } else {
      ApplyHealthy(r, f, ts, free + s.blocks - r.blocks);
    }
  }

  lemma HealthyWithId(r: RxState)
    requires Healthy(r)
    ensures Healthy(r.(transferId := NextId(r.transferId)))
  {
    NextIdFits(r.transferId);
  }

  lemma PreparedHealthy(r: RxState)
    ensures Healthy(Prepared(r))
  {
    NextIdFits(r.transferId);
  }

  lemma ApplyHealthy(r: RxState, f: Frame, ts: nat, free: nat)
    requires f.data != [] && Healthy(r) && !ApplyTrips(r, f)
    ensures Healthy(Apply(r, f, ts, free).state)
  {
    hide Healthy, Prepared, Append, IsStart, IsEnd, Toggle, TransferIdOf, Tail, Stored;
    PreparedHealthy(r.(timestamp := ts));
    PreparedHealthy(r.(calculatedCrc := Crc.Add(r.calculatedCrc, Body(f))));
    if !IsEnd(Tail(f)) && |r.payload| + |Stored(f)| < LENGTH_LIMIT && (IsStart(Tail(f)) ==> |f.data| > 3) {
      AppendHealthy(r, f, free);
      HealthyAt(r, ts);
      AppendHealthy(r.(timestamp := ts), f, free);
    }
  }

  lemma HealthyAt(r: RxState, ts: nat)
    requires Healthy(r)
    ensures Healthy(r.(timestamp := ts))
  {
  }

  lemma AppendHealthy(r: RxState, f: Frame, free: nat)
    requires f.data != [] && Healthy(r) && |r.payload| + |Stored(f)| < LENGTH_LIMIT
    requires (IsStart(Tail(f)) ==> |f.data| > 3)
    ensures Healthy(Append(r, f, free))
  {
    hide BlocksOk, BlocksAfter, Prepared, IsStart, Tail, Stored;
    PreparedHealthy(r);
    BlocksAfterOk(|r.payload|, |Stored(f)|);
  }

  lemma NextIdFits(transferId: bv8)
    ensures NextId(transferId) < 32
  {
  }

  lemma FeedHealthy(n: Node, i: nat, f: Frame, ts: nat)
    requires i < |n.rx| && f.data != [] && AllHealthy(n.rx) && !Trips(n.rx[i], f, ts)
    ensures AllHealthy(Feed(n, i, f, ts).rx)
  {
    hide Healthy, Trips, Advance;
    AdvanceHealthy(n.rx[i], f, ts, n.free);
  }

  /** The state a start frame finds or creates is as healthy as before, and trips as before. */
  lemma OpenedState(n: Node, f: Frame, ts: nat, signature: bv64)
    requires f.data != [] && IsStart(Tail(f))
    requires Find(n.rx, DescriptorOf(f.id)) < |n.rx| || n.free > 0
    ensures var i := Find(n.rx, DescriptorOf(f.id)); var o := Opened(n, DescriptorOf(f.id), signature);
            var j := if i < |n.rx| then i else 0;
            && j < |o.rx| && (AllHealthy(n.rx) ==> AllHealthy(o.rx))
            && (OwnHealthy(n.rx, DescriptorOf(f.id)) ==> Healthy(o.rx[j]))
            && (Trips(o.rx[j], f, ts) ==> i < |n.rx| && Trips(n.rx[i], f, ts))
  {
    hide IsStart, IsEnd, Toggle, TransferIdOf, Tail, Crc.AddSignature, BlocksOk, Trips;
    var i, crc := Find(n.rx, DescriptorOf(f.id)), Crc.AddSignature(0xFFFF, signature);
    if i < |n.rx| {
      CrcIsIrrelevant(n.rx[i], crc, f, ts);
    } else {
      NewStateFits(DescriptorOf(f.id), crc, f, ts);
      var o := Opened(n, DescriptorOf(f.id), signature);
      if AllHealthy(n.rx) {
        forall k | 0 <= k < |o.rx| ensures Healthy(o.rx[k]) {
          assert k > 0 ==> o.rx[k] == n.rx[k - 1];
        }
      }
    }
  }

  lemma HandleHealthy(accept: Accept, n: Node, f: Frame, ts: nat)
    requires AllHealthy(n.rx) && !Faults(accept, n, f, ts)
    ensures AllHealthy(Handle(accept, n, f, ts).rx)
  {
    hide AllHealthy, Healthy, Trips, Advance, IsStart, Tail, DescriptorOf, Crc.AddSignature;
    if Relevant(n.nodeId, f) {
      var i := Find(n.rx, DescriptorOf(f.id));
      if IsStart(Tail(f)) && Signature(accept, f).Some? && (i < |n.rx| || n.free > 0) {
        var o := Opened(n, DescriptorOf(f.id), Signature(accept, f).value);
        OpenedState(n, f, ts, Signature(accept, f).value);
        FeedHealthy(o, if i < |n.rx| then i else 0, f, ts);
      } else if i < |n.rx| && !IsStart(Tail(f)) {
        FeedHealthy(n, i, f, ts);
      }
    }
  }

  lemma CrcIsIrrelevant(s: RxState, crc: bv16, f: Frame, ts: nat)
    requires f.data != []
    ensures Trips(s.(calculatedCrc := crc), f, ts) == Trips(s, f, ts)
    ensures Healthy(s.(calculatedCrc := crc)) == Healthy(s)
  {
    hide IsStart, IsEnd, Toggle, TransferIdOf, Tail, ForwardDistance, Stored;
  }

  lemma NewStateFits(desc: nat, crc: bv16, f: Frame, ts: nat)
    requires f.data != [] && IsStart(Tail(f))
    ensures var s := NewState(desc).(calculatedCrc := crc); Healthy(s) && !Trips(s, f, ts)
  {
    hide IsStart, IsEnd, Toggle, TransferIdOf, Tail;
    assert |Stored(f)| <= 8;
  }

  // ---------------------------------------------------------------------------------------------
  // Cleanup

  predicate Stale(s: RxState, now: nat) {
    Elapsed(now, s.timestamp) > TRANSFER_TIMEOUT
  }

  /** A state is stale once it is older than 2 s. */
  lemma StaleInNumbers(s: RxState, now: nat)
    requires now < TIME_LIMIT && s.timestamp <= now
    ensures Stale(s, now) <==> now - s.timestamp > 2_000_000
  {
  }

  /** The states that are not stale, in their order. */
  function Fresh(rx: seq<RxState>, now: nat): seq<RxState> {
    if rx == [] then []
    else
      var s := rx[|rx| - 1];
      Fresh(rx[..|rx| - 1], now) + if Stale(s, now) then [] else [s]
  }

  /** The blocks that stale states and their buffers take. */
  function StaleBlocks(rx: seq<RxState>, now: nat): nat {
    if rx == [] then 0
    else
      var s := rx[|rx| - 1];
      StaleBlocks(rx[..|rx| - 1], now) + if Stale(s, now) then 1 + s.blocks else 0
  }

  /** canardCleanupStaleTransfers. */
  function Cleaned(n: Node, now: nat): Node {
    n.(rx := Fresh(n.rx, now), free := n.free + StaleBlocks(n.rx, now))
  }

  /** State i without the others; the rest closes up. */
  function WithoutState(rx: seq<RxState>, i: nat): seq<RxState>
    requires i < |rx|
  {
    rx[..i] + rx[i + 1..]
  }

  lemma UniqueWithout(rx: seq<RxState>, i: nat)
    requires Unique(rx) && i < |rx|
    ensures Unique(WithoutState(rx, i))
  {
    var r := WithoutState(rx, i);
    assert forall j | 0 <= j < |r| :: r[j] == if j < i then rx[j] else rx[j + 1];
  }

  lemma FreshStep(rx: seq<RxState>, k: nat, now: nat)
    requires k < |rx|
    ensures Fresh(rx[..k + 1], now) == Fresh(rx[..k], now) + if Stale(rx[k], now) then [] else [rx[k]]
    ensures StaleBlocks(rx[..k + 1], now) ==
            StaleBlocks(rx[..k], now) + if Stale(rx[k], now) then 1 + rx[k].blocks else 0
  {
    assert rx[..k + 1][..k] == rx[..k];
  }

  lemma TakenSnoc(rx: seq<RxState>)
    requires rx != []
    ensures Taken(rx) == Taken(rx[..|rx| - 1]) + 1 + rx[|rx| - 1].blocks
  {
    if |rx| > 1 {
      TakenSnoc(rx[1..]);
      assert rx[1..][..|rx| - 2] == rx[..|rx| - 1][1..];
    }
  }

  lemma TakenAppend(rx: seq<RxState>, s: RxState)
    ensures Taken(rx + [s]) == Taken(rx) + 1 + s.blocks
  {
    TakenSnoc(rx + [s]);
    assert (rx + [s])[..|rx|] == rx;
  }

  /** Cleaning up loses no block, keeps exactly the states that are not stale, and keeps them in order. */
  lemma {:induction false} CleanedKeeps(n: Node, now: nat)
    ensures var m := Cleaned(n, now);
            && m.free + Taken(m.rx) == n.free + Taken(n.rx)
            && (forall s :: s in m.rx <==> s in n.rx && !Stale(s, now))
    decreases |n.rx|
  {
    hide Stale;
    if n.rx != [] {
      var front := n.rx[..|n.rx| - 1];
      var s := n.rx[|n.rx| - 1];
      CleanedKeeps(n.(rx := front), now);
      TakenSnoc(n.rx);
      if !Stale(s, now) {
        TakenAppend(Fresh(front, now), s);
      } else {
        assert Fresh(front, now) + [] == Fresh(front, now);
      }
      assert n.rx == front + [s];
    }
  }

  /** Every remaining state has its origin in the old list, and origins are in order. */
  function Origin(rx: seq<RxState>, now: nat, i: nat): (o: nat)
    requires i < |Fresh(rx, now)|
    ensures o < |rx| && Fresh(rx, now)[i] == rx[o]
  {
    var front := rx[..|rx| - 1];
    if i < |Fresh(front, now)| then Origin(front, now, i) else |rx| - 1
  }

  lemma {:induction false} OriginsInOrder(rx: seq<RxState>, now: nat, i: nat, j: nat)
    requires i < j < |Fresh(rx, now)|
    ensures Origin(rx, now, i) < Origin(rx, now, j)
  {
    hide Stale;
    var front := rx[..|rx| - 1];
    if j < |Fresh(front, now)| {
      OriginsInOrder(front, now, i, j);
    }
  }
}

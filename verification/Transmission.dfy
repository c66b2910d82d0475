/** What libcanard's transmission builds: the frames of a transfer, and the priority queue they wait in. */
module Transmission {
  import opened CanFrames
  import opened Reception
  import Crc = TransferCrc

  // ---------------------------------------------------------------------------------------------
  // Frames of a transfer

  function CrcBytes(crc: bv16): (bytes: seq<bv8>)
    ensures |bytes| == 2
  {
    [(crc & 0xFF) as bv8, (crc >> 8) as bv8]
  }

  /** Where the frame that starts at byte `index` of the payload ends. */
  function ChunkEnd(index: nat, length: nat): (end: nat)
    requires index < length
    ensures index < end <= length
  {
    var room := if index == 0 then 5 else 7;
    if index + room < length then index + room else length
  }

  /** The frame of a multi-frame transfer that starts at byte `index` of the payload. */
  function FrameFrom(id: nat, transferId: bv8, crc: bv16, payload: seq<bv8>, index: nat, toggle: bool): Frame
    requires id < EXT_ID_LIMIT && index < |payload|
  {
    var end := ChunkEnd(index, |payload|);
    FrameRaw.Frame(id + FRAME_EFF, (if index == 0 then CrcBytes(crc) else []) + payload[index..end]
                                   + [TailByte(index == 0 && end < |payload|, end == |payload|, toggle, transferId)])
  }

  function FramesFrom(id: nat, transferId: bv8, crc: bv16, payload: seq<bv8>, index: nat, toggle: bool): seq<Frame>
    requires id < EXT_ID_LIMIT && index <= |payload|
    decreases |payload| - index
  {
    if index == |payload| then []
    else [FrameFrom(id, transferId, crc, payload, index, toggle)]
         + FramesFrom(id, transferId, crc, payload, ChunkEnd(index, |payload|), !toggle)
  }

  /** All frames of a transfer. */
  function TxFrames(id: nat, transferId: bv8, crc: bv16, payload: seq<bv8>): seq<Frame>
    requires id < EXT_ID_LIMIT
  {
    if |payload| < 8 then [FrameRaw.Frame(id + FRAME_EFF, payload + [TailByte(true, true, false, transferId)])]
    else FramesFrom(id, transferId, crc, payload, 0, false)
  }

  /** The CRC a sender puts into a transfer; single-frame transfers carry none. */
  function CrcFor(signature: bv64, payload: seq<bv8>): bv16 {
    if |payload| <= 7 then 0xFFFF else Crc.Add(Crc.AddSignature(0xFFFF, signature), payload)
  }

  // ---------------------------------------------------------------------------------------------
  // What is on the wire, in numbers

  /** The last byte of frame k of n: 128 for the first, 64 for the last, 32 for every other one, and the transfer ID. */
  function TailNumber(k: nat, n: nat, transferId: bv8): nat {
    (if k == 0 then 128 else 0) + (if k + 1 == n then 64 else 0) + 32 * (k % 2) + transferId as nat % 32
  }

  lemma TailByteNumber(start: bool, end: bool, toggle: bool, transferId: bv8)
    ensures TailByte(start, end, toggle, transferId) as nat ==
            (if start then 128 else 0) + (if end then 64 else 0) + (if toggle then 32 else 0) + transferId as nat % 32
  {
    LowBits(transferId);
    var low := transferId & 0x1F;
    FlagsNumber(low);
    if start {
      assert TailByte(start, end, toggle, transferId) == 0x80 | TailByte(false, end, toggle, transferId);
    }
  }

  lemma LowBits(t: bv8)
    ensures t & 0x1F < 32 && (t & 0x1F) as nat == t as nat % 32
  {
  }

  /** The three flags above a transfer ID. */
  lemma FlagsNumber(t: bv8)
    requires t < 32
    ensures (0x20 | t) as nat == 32 + t as nat && (0x40 | t) as nat == 64 + t as nat
    ensures (0x80 | t) as nat == 128 + t as nat
    ensures (0x60 | t) as nat == 96 + t as nat && (0xA0 | t) as nat == 160 + t as nat
    ensures (0xC0 | t) as nat == 192 + t as nat && (0xE0 | t) as nat == 224 + t as nat
  {
  }

  lemma CrcNumbers(crc: bv16)
    ensures CrcBytes(crc)[0] as nat == crc as nat % 256 && CrcBytes(crc)[1] as nat == crc as nat / 256
  {
    hide CrcBytes;
    CrcParts(crc);
    TwoBytes(CrcBytes(crc)[1], CrcBytes(crc)[0]);
    BytesApart(crc as nat, CrcBytes(crc)[1] as nat, CrcBytes(crc)[0] as nat);
  }

  lemma BytesApart(n: nat, high: nat, low: nat)
    requires n == 256 * high + low && low < 256
    ensures n % 256 == low && n / 256 == high
  {
    Field(n, 256, high, low);
  }

  lemma CrcParts(crc: bv16)
    ensures crc == ((CrcBytes(crc)[1] as bv16) << 8) | (CrcBytes(crc)[0] as bv16)
  {
  }

  lemma TwoBytes(high: bv8, low: bv8)
    ensures (((high as bv16) << 8) | (low as bv16)) as nat == 256 * (high as nat) + low as nat && low as nat < 256
  {
  }

  /** Everything but the tail bytes. */
  function Carried(frames: seq<Frame>): seq<bv8> {
    if frames == [] then []
    else (if frames[0].data == [] then [] else frames[0].data[..|frames[0].data| - 1]) + Carried(frames[1..])
  }

  /** Frame k of the n frames of a transfer. */
  predicate OnWire(f: Frame, k: nat, n: nat, id: nat, transferId: bv8) {
    && f.id == 0x8000_0000 + id && f.data != [] && (k + 1 < n ==> |f.data| == 8)
    && f.data[|f.data| - 1] as nat == TailNumber(k, n, transferId)
  }

  predicate AllOnWire(frames: seq<Frame>, k: nat, n: nat, id: nat, transferId: bv8) {
    k + |frames| == n && forall j | 0 <= j < |frames| :: OnWire(frames[j], k + j, n, id, transferId)
  }

  /** Where frame k starts, and how many frames there are. */
  function StartOf(k: nat): nat {
    if k == 0 then 0 else 7 * k - 2
  }

  function Count(length: nat): nat {
    if length < 8 then 1 else (length + 8) / 7
  }

  lemma Layout(k: nat, length: nat)
    requires length > 7 && StartOf(k) < length
    ensures var end := ChunkEnd(StartOf(k), length);
            && (end < length ==> end == StartOf(k + 1) && k + 1 < Count(length)
                                 && end - StartOf(k) == (if k == 0 then 5 else 7))
            && (end == length ==> k > 0 && k + 1 == Count(length))
  {
  }

  lemma FrameOnWire(id: nat, transferId: bv8, crc: bv16, payload: seq<bv8>, k: nat)
    requires id < EXT_ID_LIMIT && |payload| > 7 && StartOf(k) < |payload|
    ensures var f := FrameFrom(id, transferId, crc, payload, StartOf(k), k % 2 == 1);
            && OnWire(f, k, Count(|payload|), id, transferId)
            && f.data[..|f.data| - 1]
               == (if k == 0 then CrcBytes(crc) else []) + payload[StartOf(k)..ChunkEnd(StartOf(k), |payload|)]
  {
    hide TailByte, CrcBytes, ChunkEnd, Count;
    Layout(k, |payload|);
    var end := ChunkEnd(StartOf(k), |payload|);
    TailByteNumber(k == 0 && end < |payload|, end == |payload|, k % 2 == 1, transferId);
  }

  lemma {:induction false} RestOnWire(id: nat, transferId: bv8, crc: bv16, payload: seq<bv8>, k: nat)
    requires id < EXT_ID_LIMIT && |payload| > 7 && StartOf(k) < |payload|
    ensures var frames := FramesFrom(id, transferId, crc, payload, StartOf(k), k % 2 == 1);
            && AllOnWire(frames, k, Count(|payload|), id, transferId)
            && Carried(frames) == (if k == 0 then CrcBytes(crc) else []) + payload[StartOf(k)..]
    decreases |payload| - StartOf(k)
  {
    hide FrameFrom, CrcBytes, ChunkEnd, Count, OnWire, AllOnWire, StartOf, FramesFrom, Carried;
    Layout(k, |payload|);
    var index, end := StartOf(k), ChunkEnd(StartOf(k), |payload|);
    var f := FrameFrom(id, transferId, crc, payload, index, k % 2 == 1);
    var rest := FramesFrom(id, transferId, crc, payload, end, (k + 1) % 2 == 1);
    FramesFromIs(id, transferId, crc, payload, index, k % 2 == 1);
    FrameOnWire(id, transferId, crc, payload, k);
    if end < |payload| {
      RestOnWire(id, transferId, crc, payload, k + 1);
    } else {
      FramesFromIs(id, transferId, crc, payload, end, (k + 1) % 2 == 1);
      NothingBehind(Count(|payload|), id, transferId);
    }
    assert payload[index..] == payload[index..end] + payload[end..];
    FirstOnWire(f, rest, k, Count(|payload|), id, transferId);
  }

  lemma NothingBehind(n: nat, id: nat, transferId: bv8)
    ensures Carried([]) == [] && AllOnWire([], n, n, id, transferId)
  {
  }

  lemma FirstOnWire(f: Frame, rest: seq<Frame>, k: nat, n: nat, id: nat, transferId: bv8)
    requires OnWire(f, k, n, id, transferId) && AllOnWire(rest, k + 1, n, id, transferId)
    ensures AllOnWire([f] + rest, k, n, id, transferId)
    ensures Carried([f] + rest) == f.data[..|f.data| - 1] + Carried(rest)
  {
    assert ([f] + rest)[1..] == rest;
    forall j | 0 <= j < |[f] + rest| ensures OnWire(([f] + rest)[j], k + j, n, id, transferId) {
      if j > 0 {
        assert ([f] + rest)[j] == rest[j - 1];
        assert OnWire(rest[j - 1], k + 1 + (j - 1), n, id, transferId);
      }
    }
  }

  /** The frames of every transfer, in the numbers of the protocol: identifier, tail bytes, the CRC in front, least
      significant byte first, and then the payload; all frames but the last are full. */
  lemma WireFormat(id: nat, transferId: bv8, crc: bv16, payload: seq<bv8>)
    requires id < EXT_ID_LIMIT
    ensures var frames := TxFrames(id, transferId, crc, payload); var n := |frames|;
            && n == (if |payload| < 8 then 1 else (|payload| + 8) / 7)
            && (forall k | 0 <= k < n ::
                  && frames[k].id == 0x8000_0000 + id && 1 <= |frames[k].data| <= 8
                  && (k + 1 < n ==> |frames[k].data| == 8)
                  && frames[k].data[|frames[k].data| - 1] as nat ==
                     (if k == 0 then 128 else 0) + (if k == n - 1 then 64 else 0) + 32 * (k % 2)
                     + transferId as nat % 32)
            && (if n == 1 then Carried(frames) == payload
                else
                  && |Carried(frames)| == |payload| + 2 && Carried(frames)[2..] == payload
                  && Carried(frames)[0] as nat == crc as nat % 256 && Carried(frames)[1] as nat == crc as nat / 256)
  {
    hide TailByte, CrcBytes, FramesFrom;
    if |payload| > 7 {
      CrcNumbers(crc);
      RestOnWire(id, transferId, crc, payload, 0);
    } else {
      SingleOnWire(id, transferId, crc, payload);
    }
  }

  lemma SingleOnWire(id: nat, transferId: bv8, crc: bv16, payload: seq<bv8>)
    requires id < EXT_ID_LIMIT && |payload| < 8
    ensures var frames := TxFrames(id, transferId, crc, payload);
            |frames| == 1 && OnWire(frames[0], 0, 1, id, transferId) && Carried(frames) == payload
  {
    hide TailByte;
    TailByteNumber(true, true, false, transferId);
    var f := TxFrames(id, transferId, crc, payload)[0];
    assert [f][1..] == [] && f.data[..|f.data| - 1] == payload;
  }

  // ---------------------------------------------------------------------------------------------
  // The queue

  /** The first queued frame that the new one beats on the bus. */
  function Position(q: seq<Frame>, id: Word): (i: nat)
    ensures i <= |q| && (forall j | 0 <= j < i :: !IsPriorityHigher(q[j].id, id))
    ensures i < |q| ==> IsPriorityHigher(q[i].id, id)
  {
    if q == [] || IsPriorityHigher(q[0].id, id) then 0 else 1 + Position(q[1..], id)
  }

  lemma PositionIs(q: seq<Frame>, id: Word, i: nat)
    requires i <= |q| && (forall j | 0 <= j < i :: !IsPriorityHigher(q[j].id, id))
    requires i < |q| ==> IsPriorityHigher(q[i].id, id)
    ensures Position(q, id) == i
  {
  }

  function Insert(q: seq<Frame>, f: Frame): seq<Frame> {
    var i := Position(q, f.id);
    q[..i] + [f] + q[i..]
  }

  lemma InsertAt(q: seq<Frame>, f: Frame, i: nat)
    requires i == Position(q, f.id)
    ensures i <= |q| && Insert(q, f) == q[..i] + [f] + q[i..]
  {
  }

  function InsertAll(q: seq<Frame>, frames: seq<Frame>): seq<Frame> {
    if frames == [] then q else Insert(InsertAll(q, frames[..|frames| - 1]), frames[|frames| - 1])
  }

  // ---------------------------------------------------------------------------------------------
  // API calls

  const INVALID_ARGUMENT := 2
  const OUT_OF_MEMORY := 3
  const NODE_ID_NOT_SET := 4

  /** What a call sends: an identifier and a CRC, or an error. */
  datatype Plan = Rejected(error: int) | Planned(id: nat, crc: bv16)

  /** The next transfer ID a sender uses; a value out of range starts over. */
  function IncrementTransferId(transferId: bv8): bv8 {
    if transferId >= 31 then 0 else transferId + 1
  }

  lemma IncrementIsNext(transferId: bv8)
    ensures transferId < 32 ==> IncrementTransferId(transferId) == NextId(transferId)
    ensures IncrementTransferId(transferId) as nat == if transferId as nat < 31 then transferId as nat + 1 else 0
  {
  }

  /** 14 bits of the payload's CRC, as an even 15-bit number. */
  function Discriminator(payload: seq<bv8>): (d: nat)
    ensures d < 0x8000 && d % 2 == 0
  {
    2 * (((Crc.Add(0xFFFF, payload) >> 1) & 0x3FFF) as bv14 as nat)
  }

  function Upper(crc: bv16): bv1 { (crc >> 15) as bv1 }

  function Inner(crc: bv16): bv14 { ((crc >> 1) & 0x3FFF) as bv14 }

  function Lowest(crc: bv16): bv1 { (crc & 1) as bv1 }

  lemma CrcPieces(crc: bv16)
    ensures crc == ((Upper(crc) as bv16) << 15) | ((Inner(crc) as bv16) << 1) | (Lowest(crc) as bv16)
  {
  }

  lemma PiecesNumber(u: bv1, i: bv14, l: bv1)
    ensures (((u as bv16) << 15) | ((i as bv16) << 1) | (l as bv16)) as nat ==
            0x8000 * (u as nat) + 2 * (i as nat) + l as nat
    ensures u as nat < 2 && i as nat < 0x4000 && l as nat < 2
  {
  }

  /** The discriminator is the lower 15 bits of the CRC, without the lowest one. */
  lemma DiscriminatorNumber(payload: seq<bv8>)
    ensures Discriminator(payload) == Crc.Add(0xFFFF, payload) as nat / 2 % 0x4000 * 2
  {
    hide Crc.Add, Upper, Inner, Lowest, Discriminator;
    var crc := Crc.Add(0xFFFF, payload);
    CrcPieces(crc);
    PiecesNumber(Upper(crc), Inner(crc), Lowest(crc));
    Middle(crc as nat, Upper(crc) as nat, Inner(crc) as nat, Lowest(crc) as nat);
    DiscriminatorIs(payload);
  }

  lemma Middle(n: nat, u: nat, i: nat, l: nat)
    requires n == 0x8000 * u + 2 * i + l && u < 2 && i < 0x4000 && l < 2
    ensures n / 2 % 0x4000 == i
  {
    Field(n, 2, 0x4000 * u + i, l);
    Field(0x4000 * u + i, 0x4000, u, i);
  }

  lemma DiscriminatorIs(payload: seq<bv8>)
    ensures Discriminator(payload) == 2 * (Inner(Crc.Add(0xFFFF, payload)) as nat)
  {
  }

  /** An anonymous message carries the discriminator in bits 10 to 23 of its identifier. */
  lemma DiscriminatorSent(signature: bv64, dataTypeId: nat, priority: nat, payload: seq<bv8>)
    requires priority < 32 && dataTypeId < 4 && |payload| <= 7
    ensures var p := BroadcastPlan(0, signature, dataTypeId, priority, payload);
            p.Planned? && p.id / 0x400 % 0x4000 == Crc.Add(0xFFFF, payload) as nat / 2 % 0x4000
  {
    hide Crc.Add, Discriminator;
    DiscriminatorNumber(payload);
    var d := Discriminator(payload) / 2;
    var id := BroadcastPlan(0, signature, dataTypeId, priority, payload).id;
    Field(id, 0x400, 0x4000 * priority + d, 0x100 * dataTypeId);
    Field(0x4000 * priority + d, 0x4000, priority, d);
  }

  function BroadcastPlan(nodeId: nat, signature: bv64, dataTypeId: nat, priority: nat, payload: seq<bv8>): (p: Plan)
    requires nodeId < 128 && dataTypeId < 0x1_0000
    ensures p.Planned? ==> p.id < EXT_ID_LIMIT
  {
    if priority > 31 then Rejected(INVALID_ARGUMENT)
    else if nodeId == 0 then
      if |payload| > 7 then Rejected(NODE_ID_NOT_SET)
      else if dataTypeId % 4 != dataTypeId then Rejected(INVALID_ARGUMENT)
      else Planned(AnonymousId(priority, Discriminator(payload), dataTypeId), 0xFFFF)
    else Planned(BroadcastId(priority, dataTypeId, nodeId), CrcFor(signature, payload))
  }

  function ServicePlan(nodeId: nat, dest: nat, signature: bv64, dataTypeId: nat, priority: nat, request: bool,
                       payload: seq<bv8>): (p: Plan)
    requires nodeId < 128 && dest < 0x100 && dataTypeId < 0x100
    ensures p.Planned? ==> p.id < EXT_ID_LIMIT
  {
    if priority > 31 then Rejected(INVALID_ARGUMENT)
    else if nodeId == 0 then Rejected(NODE_ID_NOT_SET)
    else Planned(ServiceId(priority, dataTypeId, request, dest, nodeId), CrcFor(signature, payload))
  }

  /** What a receiver reads off the identifier is what the caller asked for. */
  lemma BroadcastIdentifies(nodeId: nat, signature: bv64, dataTypeId: nat, priority: nat, payload: seq<bv8>)
    requires nodeId < 128 && dataTypeId < 0x1_0000
    ensures var p := BroadcastPlan(nodeId, signature, dataTypeId, priority, payload);
            && (p.Planned? <==> priority < 32 && (nodeId == 0 ==> |payload| <= 7 && dataTypeId < 4))
            && (p.Rejected? ==> p.error == if priority < 32 && |payload| > 7 then 4 else 2)
            && (p.Planned? ==> HeaderOf(p.id + FRAME_EFF) == Header(priority, dataTypeId, Broadcast, nodeId, 0)
                                && p.crc == CrcFor(signature, payload))
            && (p.Planned? && |payload| > 7 ==> p.crc == Crc.Add(0xFFFF, Crc.SignatureBytes(signature) + payload))
  {
    hide HeaderOf, Crc.Add, Crc.SignatureBytes, AnonymousId, BroadcastId;
    Crc.AddConcat(0xFFFF, Crc.SignatureBytes(signature), payload);
    if priority < 32 {
      if nodeId == 0 {
        if dataTypeId < 4 {
          AnonymousHeader(priority, Discriminator(payload), dataTypeId);
        }
      } else {
        BroadcastHeader(priority, dataTypeId, nodeId);
      }
    }
  }

  /** The same for services; but the destination is taken modulo 128, and a response to 128 or more becomes a
      request. */
  lemma ServiceIdentifies(nodeId: nat, dest: nat, signature: bv64, dataTypeId: nat, priority: nat, request: bool,
                          payload: seq<bv8>)
    requires nodeId < 128 && dest < 0x100 && dataTypeId < 0x100
    ensures var p := ServicePlan(nodeId, dest, signature, dataTypeId, priority, request, payload);
            && (p.Planned? <==> priority < 32 && nodeId != 0)
            && (p.Rejected? ==> p.error == if priority < 32 then 4 else 2)
            && (p.Planned? ==> HeaderOf(p.id + FRAME_EFF) ==
                                Header(priority, dataTypeId, if MarkedRequest(request, dest) then Request else Response,
                                       nodeId, dest % 0x80)
                                && p.crc == CrcFor(signature, payload))
            && (p.Planned? && |payload| > 7 ==> p.crc == Crc.Add(0xFFFF, Crc.SignatureBytes(signature) + payload))
  {
    hide HeaderOf, Crc.Add, Crc.SignatureBytes, ServiceId;
    Crc.AddConcat(0xFFFF, Crc.SignatureBytes(signature), payload);
    if priority < 32 {
      ServiceHeader(priority, dataTypeId, request, dest, nodeId);
    }
  }

  /** What a call leaves in the queue: the frames of the transfer, or as many as there are blocks for. */
  function Transmitted(n: Node, frames: seq<Frame>): Node {
    var k := if |frames| <= n.free then |frames| else n.free;
    n.(tx := InsertAll(n.tx, frames[..k]), free := n.free - k)
  }

  function SendResult(n: Node, frames: seq<Frame>): int {
    if |frames| <= n.free then |frames| else -OUT_OF_MEMORY
  }

  /** The result of a call is the number of frames, or -3 for out of memory. */
  lemma ResultInNumbers(n: Node, frames: seq<Frame>)
    ensures SendResult(n, frames) == if |frames| <= n.free then |frames| else -3
  {
  }

  lemma TransmittedNone(n: Node)
    ensures Transmitted(n, []) == n
  {
  }

  lemma TransmittedMore(n: Node, sent: seq<Frame>, f: Frame)
    requires |sent| <= n.free
    ensures |sent| < n.free ==>
              Transmitted(n, sent + [f]) == Transmitted(n, sent).(tx := Insert(Transmitted(n, sent).tx, f),
                                                                  free := Transmitted(n, sent).free - 1)
    ensures |sent| == n.free ==> Transmitted(n, sent + [f]) == Transmitted(n, sent)
    ensures Transmitted(n, sent).free == n.free - |sent|
  {
    hide Insert;
    var all := sent + [f];
    assert sent[..|sent|] == sent && all[..|sent|] == sent;
    if |sent| < n.free {
      assert all[..|all|] == all && all[..|all| - 1] == sent;
    }
  }

  lemma TransmittedNoMore(n: Node, sent: seq<Frame>, rest: seq<Frame>)
    requires |sent| == n.free && rest != []
    ensures Transmitted(n, sent + rest) == Transmitted(n, sent) && SendResult(n, sent + rest) == -OUT_OF_MEMORY
  {
    assert (sent + rest)[..|sent|] == sent[..|sent|];
  }

  lemma FramesFromIs(id: nat, transferId: bv8, crc: bv16, payload: seq<bv8>, index: nat, toggle: bool)
    requires id < EXT_ID_LIMIT && index <= |payload|
    ensures FramesFrom(id, transferId, crc, payload, index, toggle) ==
            if index == |payload| then []
            else [FrameFrom(id, transferId, crc, payload, index, toggle)]
                 + FramesFrom(id, transferId, crc, payload, ChunkEnd(index, |payload|), !toggle)
    ensures index < |payload| ==> FrameFrom(id, transferId, crc, payload, index, toggle).data != []
  {
  }

  lemma OneMore(sent: seq<Frame>, f: Frame, rest: seq<Frame>)
    ensures sent + ([f] + rest) == (sent + [f]) + rest
  {
  }

  lemma PlannedId(nodeId: nat, signature: bv64, dataTypeId: nat, priority: nat, payload: seq<bv8>)
    requires nodeId < 128 && dataTypeId < 0x1_0000
    ensures var p := BroadcastPlan(nodeId, signature, dataTypeId, priority, payload); p.Planned? ==> p.id < EXT_ID_LIMIT
  {
  }

  lemma PlannedServiceId(nodeId: nat, dest: nat, signature: bv64, dataTypeId: nat, priority: nat, request: bool,
                         payload: seq<bv8>)
    requires nodeId < 128 && dest < 0x100 && dataTypeId < 0x100
    ensures var p := ServicePlan(nodeId, dest, signature, dataTypeId, priority, request, payload);
            p.Planned? ==> p.id < EXT_ID_LIMIT
  {
  }

  // ---------------------------------------------------------------------------------------------
  // Several calls

  /** A call that sends something: a message, or a service request or response. */
  datatype Outgoing =
    | Publish(signature: bv64, dataTypeId: nat, transferId: bv8, priority: nat, payload: seq<bv8>)
    | Ask(dest: nat, signature: bv64, dataTypeId: nat, transferId: bv8, priority: nat, request: bool, payload: seq<bv8>)
  {
    /** The argument types of the API. */
    predicate Proper() {
      match this
      case Publish(_, dataTypeId, _, _, _) => dataTypeId < 0x1_0000
      case Ask(dest, _, dataTypeId, _, _, _, _) => dataTypeId < 0x100 && dest < 0x100
    }

    function PlanFrom(nodeId: nat): (p: Plan)
      requires nodeId < 128 && Proper()
      ensures p.Planned? ==> p.id < EXT_ID_LIMIT
    {
      match this
      case Publish(_, _, _, _, _) => BroadcastPlan(nodeId, signature, dataTypeId, priority, payload)
      case Ask(_, _, _, _, _, _, _) => ServicePlan(nodeId, dest, signature, dataTypeId, priority, request, payload)
    }

    /** The frames a call of this node sends; none if it is rejected. */
    function FramesFor(nodeId: nat): seq<Frame>
      requires nodeId < 128 && Proper()
    {
      var p := PlanFrom(nodeId);
      if p.Planned? then TxFrames(p.id, transferId, p.crc, payload) else []
    }
  }

  predicate AllProper(calls: seq<Outgoing>) {
    forall i | 0 <= i < |calls| :: calls[i].Proper()
  }

  /** Several calls, one after the other. */
  function Called(n: Node, calls: seq<Outgoing>): (m: Node)
    requires n.nodeId < 128 && AllProper(calls)
    ensures m.nodeId == n.nodeId
  {
    if calls == [] then n
    else
      var before := Called(n, calls[..|calls| - 1]);
      Transmitted(before, calls[|calls| - 1].FramesFor(n.nodeId))
  }

  lemma CalledNone(n: Node)
    requires n.nodeId < 128
    ensures Called(n, []) == n
  {
  }

  lemma FramesForPlan(n: Node, call: Outgoing)
    requires n.nodeId < 128 && call.Proper()
    ensures var p := call.PlanFrom(n.nodeId);
            Transmitted(n, call.FramesFor(n.nodeId)) ==
            if p.Planned? then Transmitted(n, TxFrames(p.id, call.transferId, p.crc, call.payload)) else n
  {
    hide Transmitted;
    TransmittedNone(n);
  }

  lemma CalledMore(n: Node, calls: seq<Outgoing>, call: Outgoing)
    requires n.nodeId < 128 && AllProper(calls) && call.Proper()
    ensures Called(n, calls + [call]) == Transmitted(Called(n, calls), call.FramesFor(n.nodeId))
  {
    hide Transmitted;
    var more := calls + [call];
    assert more[..|more| - 1] == calls;
  }

  lemma {:induction false} InsertAllLength(q: seq<Frame>, frames: seq<Frame>)
    ensures |InsertAll(q, frames)| == |q| + |frames|
  {
    hide Position;
    if frames != [] {
      InsertAllLength(q, frames[..|frames| - 1]);
    }
  }

  lemma TransmittedMoves(n: Node, frames: seq<Frame>)
    ensures var m := Transmitted(n, frames);
            m == n.(tx := m.tx, free := m.free) && m.free + |m.tx| == n.free + |n.tx| && |m.tx| <= |n.tx| + |frames|
  {
    hide InsertAll;
    InsertAllLength(n.tx, frames[..if |frames| <= n.free then |frames| else n.free]);
  }

  /** Calls move blocks from the free list to the queue, and do nothing else. */
  lemma {:induction false} CalledMoves(n: Node, calls: seq<Outgoing>)
    requires n.nodeId < 128 && AllProper(calls)
    ensures var m := Called(n, calls);
            m == n.(tx := m.tx, free := m.free) && m.free + |m.tx| == n.free + |n.tx|
  {
    hide Transmitted;
    if calls != [] {
      CalledMoves(n, calls[..|calls| - 1]);
      TransmittedMoves(Called(n, calls[..|calls| - 1]), calls[|calls| - 1].FramesFor(n.nodeId));
    }
  }

  /** The frames of several calls. */
  function Volume(nodeId: nat, calls: seq<Outgoing>): nat
    requires nodeId < 128 && AllProper(calls)
  {
    if calls == [] then 0 else Volume(nodeId, calls[..|calls| - 1]) + |calls[|calls| - 1].FramesFor(nodeId)|
  }

  /** Every frame is queued as long as there are blocks. */
  lemma {:induction false} CalledCount(n: Node, calls: seq<Outgoing>)
    requires n.nodeId < 128 && AllProper(calls)
    ensures var v := Volume(n.nodeId, calls); |Called(n, calls).tx| == |n.tx| + if v <= n.free then v else n.free
  {
    hide Transmitted;
    if calls != [] {
      var before, frames := Called(n, calls[..|calls| - 1]), calls[|calls| - 1].FramesFor(n.nodeId);
      CalledCount(n, calls[..|calls| - 1]);
      CalledMoves(n, calls[..|calls| - 1]);
      TransmittedCount(before, frames);
    }
  }

  lemma TransmittedCount(n: Node, frames: seq<Frame>)
    ensures |Transmitted(n, frames).tx| == |n.tx| + if |frames| <= n.free then |frames| else n.free
  {
    hide InsertAll;
    InsertAllLength(n.tx, frames[..if |frames| <= n.free then |frames| else n.free]);
  }

  /** With blocks for all frames, the blocks beyond them make no difference. */
  lemma {:induction false} CalledWithRoom(n: Node, spare: nat, calls: seq<Outgoing>)
    requires n.nodeId < 128 && AllProper(calls) && Volume(n.nodeId, calls) <= n.free
    ensures var m := Called(n, calls);
            m.free == n.free - Volume(n.nodeId, calls)
            && Called(n.(free := n.free + spare), calls) == m.(free := m.free + spare)
  {
    hide InsertAll;
    if calls != [] {
      CalledWithRoom(n, spare, calls[..|calls| - 1]);
    }
  }

  /** The queue after an application has made calls while so many blocks were free. */
  function QueueAfterCalls(nodeId: nat, tx: seq<Frame>, free: nat, calls: seq<Outgoing>): seq<Frame>
    requires nodeId < 128 && AllProper(calls)
  {
    Called(Node(nodeId, free, tx, [], []), calls).tx
  }

  lemma {:induction false} CalledQueue(n: Node, calls: seq<Outgoing>)
    requires n.nodeId < 128 && AllProper(calls)
    ensures Called(n, calls).(rx := [], log := []) == Called(n.(rx := [], log := []), calls)
    ensures Called(n, calls).tx == QueueAfterCalls(n.nodeId, n.tx, n.free, calls)
  {
    hide InsertAll;
    if calls != [] {
      CalledQueue(n, calls[..|calls| - 1]);
    }
  }

  // ---------------------------------------------------------------------------------------------
  // Answers out of the reception callback

  /** The blocks of the state that a transfer still holds while the application makes its calls. */
  function LentWhile(s: RxState, f: Frame, releases: bool): nat
    requires f.data != []
  {
    if IsStart(Tail(f)) || releases then 0 else s.blocks
  }

  /** A frame took the node from n to m. If it completed a transfer, the application has then made its calls, which did
      not find free what the transfer still held. */
  function Answered(n: Node, m: Node, lent: nat, replies: seq<Outgoing>): Node
    requires m.nodeId < 128 && AllProper(replies) && (|m.log| != |n.log| ==> lent <= m.free)
  {
    if |m.log| == |n.log| then m
    else
      var c := Called(m.(free := m.free - lent), replies);
      c.(free := c.free + lent)
  }

  /** Calls out of the callback do what the same calls would do afterwards exactly if the transfer holds nothing any
      more, or its blocks are not needed. */
  lemma AnsweredAsAfterwards(n: Node, m: Node, lent: nat, replies: seq<Outgoing>)
    requires m.nodeId < 128 && AllProper(replies) && |m.log| != |n.log| && lent <= m.free
    ensures Answered(n, m, lent, replies) == Called(m, replies) <==>
            lent == 0 || Volume(m.nodeId, replies) + lent <= m.free
  {
    hide Called, Volume;
    var less := m.(free := m.free - lent);
    CalledCount(less, replies);
    CalledCount(m, replies);
    if Volume(m.nodeId, replies) <= less.free {
      CalledWithRoom(less, lent, replies);
      assert less.(free := less.free + lent) == m;
    }
  }

  lemma FeedLends(n: Node, i: nat, f: Frame, ts: nat, releases: bool)
    requires i < |n.rx| && f.data != []
    ensures var m := Feed(n, i, f, ts);
            && m.nodeId == n.nodeId && (|m.log| != |n.log| ==> LentWhile(n.rx[i], f, releases) <= m.free)
  {
    hide IsStart, IsEnd, Toggle, TransferIdOf, Tail, Append;
  }

  /** Puts state i through the frame, and lets the application answer. */
  function FeedAnswered(n: Node, i: nat, f: Frame, ts: nat, releases: bool, replies: seq<Outgoing>): Node
    requires n.nodeId < 128 && i < |n.rx| && f.data != [] && AllProper(replies)
  {
    FeedLends(n, i, f, ts, releases);
    Answered(n, Feed(n, i, f, ts), LentWhile(n.rx[i], f, releases), replies)
  }

  /** Which queue and free count that leaves. */
  lemma FeedAnsweredIs(n: Node, i: nat, f: Frame, ts: nat, releases: bool, replies: seq<Outgoing>, tx: seq<Frame>,
                       free: nat)
    requires n.nodeId < 128 && i < |n.rx| && f.data != [] && AllProper(replies)
    requires var m, lent := Feed(n, i, f, ts), LentWhile(n.rx[i], f, releases);
             && free + |tx| == m.free + |n.tx| && (Advance(n.rx[i], f, ts, n.free).delivered.None? ==> tx == n.tx)
             && (Advance(n.rx[i], f, ts, n.free).delivered.Some? ==>
                   lent <= m.free && tx == QueueAfterCalls(n.nodeId, n.tx, m.free - lent, replies))
    ensures FeedAnswered(n, i, f, ts, releases, replies) == Feed(n, i, f, ts).(tx := tx, free := free)
  {
    hide Advance, LentWhile, Called, QueueAfterCalls;
    FeedLends(n, i, f, ts, releases);
    var m, lent := Feed(n, i, f, ts), LentWhile(n.rx[i], f, releases);
    if Advance(n.rx[i], f, ts, n.free).delivered.Some? {
      CalledQueue(m.(free := m.free - lent), replies);
      CalledMoves(m.(free := m.free - lent), replies);
    }
  }

  /** A state that is not restarted lends its blocks, and the start of a transfer lends none. */
  lemma CurrentLends(s: RxState, f: Frame, ts: nat, releases: bool)
    requires f.data != [] && (NeedRestart(s, Tail(f), ts) ==> IsStart(Tail(f)))
    ensures LentWhile(Current(s, Tail(f), ts), f, releases) == LentWhile(s, f, releases)
  {
    hide NeedRestart, IsStart, Tail;
  }

  /** The blocks that a transfer completed by this frame still holds while the application makes its calls. */
  function Lending(n: Node, f: Frame, releases: bool): nat {
    var i := Find(n.rx, DescriptorOf(f.id));
    if i < |n.rx| && f.data != [] then LentWhile(n.rx[i], f, releases) else 0
  }

  lemma HandleLends(accept: Accept, n: Node, f: Frame, ts: nat, releases: bool)
    ensures var m := Handle(accept, n, f, ts);
            m.nodeId == n.nodeId && (|m.log| != |n.log| ==> Lending(n, f, releases) <= m.free)
  {
    hide Feed, IsStart, Tail;
    if Relevant(n.nodeId, f) {
      var i := Find(n.rx, DescriptorOf(f.id));
      if i < |n.rx| {
        FeedLends(n, i, f, ts, releases);
      }
      if IsStart(Tail(f)) && Signature(accept, f).Some? && (i < |n.rx| || n.free > 0) {
        var o := Opened(n, DescriptorOf(f.id), Signature(accept, f).value);
        FeedLends(o, if i < |n.rx| then i else 0, f, ts, releases);
      }
    }
  }

  /** canardHandleRxFrame, with what the application does in its callback. */
  function HandleAnswered(accept: Accept, n: Node, f: Frame, ts: nat, releases: bool, replies: seq<Outgoing>): Node
    requires n.nodeId < 128 && AllProper(replies)
  {
    HandleLends(accept, n, f, ts, releases);
    Answered(n, Handle(accept, n, f, ts), Lending(n, f, releases), replies)
  }

  lemma HandleAnsweredIs(accept: Accept, n: Node, f: Frame, ts: nat, releases: bool, replies: seq<Outgoing>)
    requires n.nodeId < 128 && AllProper(replies)
    ensures var desc := DescriptorOf(f.id); var i := Find(n.rx, desc); var j := if i < |n.rx| then i else 0;
            HandleAnswered(accept, n, f, ts, releases, replies) ==
            if !Relevant(n.nodeId, f) then n
            else if IsStart(Tail(f)) then
              if Signature(accept, f).None? || (i == |n.rx| && n.free == 0) then n
              else FeedAnswered(Opened(n, desc, Signature(accept, f).value), j, f, ts, releases, replies)
            else if i == |n.rx| then n
            else FeedAnswered(n, i, f, ts, releases, replies)
  {
    hide Feed, IsStart, Tail, Called;
    HandleLends(accept, n, f, ts, releases);
  }

  /** What a start frame that the application wants must achieve, unless it trips an assertion. */
  predicate Started(n: Node, desc: nat, signature: bv64, f: Frame, ts: nat, releases: bool, replies: seq<Outgoing>,
                    readable: bool, n': Node, readable': bool)
    requires f.data != [] && n.nodeId < 128 && AllProper(replies)
  {
    var i := Find(n.rx, desc);
    OwnHealthy(n.rx, desc) ==>
      if i == |n.rx| && n.free == 0 then n' == n && (readable ==> readable')
      else !(i < |n.rx| && Trips(n.rx[i], f, ts)) ==>
        && (readable ==> readable')
        && n' == FeedAnswered(Opened(n, desc, signature), if i < |n.rx| then i else 0, f, ts, releases, replies)
  }

  /** At most one transfer is handed over, and the queue changes only by the calls that answer it. */
  ghost predicate OnlyAnswered(nodeId: nat, replies: seq<Outgoing>, tx: seq<Frame>, log: seq<Transfer>, tx': seq<Frame>,
                               log': seq<Transfer>)
    requires nodeId < 128 && AllProper(replies)
  {
    || (log' == log && tx' == tx)
    || (|log'| == |log| + 1 && log'[..|log|] == log
        && exists free: nat :: tx' == QueueAfterCalls(nodeId, tx, free, replies))
  }

  lemma NothingAnswered(nodeId: nat, replies: seq<Outgoing>, tx: seq<Frame>, log: seq<Transfer>)
    requires nodeId < 128 && AllProper(replies)
    ensures OnlyAnswered(nodeId, replies, tx, log, tx, log)
  {
  }
}

/** Dynamic node-ID allocation: the node offers its unique ID in pieces until an allocator has confirmed all of it. */
module NodeAllocation {
  import opened CanFrames
  import opened Transmission

  const UNIQUE_ID_SIZE := 16
  const MAX_REQUEST_PIECE := 6
  const ALLOCATION_TYPE_ID := 1
  const PRIORITY_LOW := 24

  type UniqueId = u: seq<bv8> | |u| == UNIQUE_ID_SIZE witness seq(UNIQUE_ID_SIZE, _ => 0)

  /** What the node knows: its node ID (0 for none), and how much of its unique ID was confirmed last. */
  datatype Client = Client(nodeId: nat, offset: nat)

  /** An allocation message: the source (0 for anonymous) and the payload. */
  datatype Message = Message(source: nat, payload: seq<bv8>)

  /** The node ID is in the upper seven bits of the first byte. */
  function AllocatedId(payload: seq<bv8>): (id: nat)
    requires payload != []
    ensures id < 128
  {
    (payload[0] >> 1) as bv7 as nat
  }

  lemma AllocatedIs(payload: seq<bv8>)
    requires payload != []
    ensures AllocatedId(payload) == payload[0] as nat / 2
  {
  }

  predicate Fits(m: Message) {
    1 <= |m.payload| <= 1 + UNIQUE_ID_SIZE
  }

  /** The message trips no assertion: it is ignored, it is another node's request, or its unique ID has a possible
      length. */
  predicate Tolerates(c: Client, m: Message) {
    c.nodeId != 0 || m.source == 0 || Fits(m)
  }

  /** The node hears an allocation message. */
  function Hear(c: Client, uid: UniqueId, m: Message): Client
    requires Tolerates(c, m)
  {
    var received := if m.payload == [] then [] else m.payload[1..];
    if c.nodeId != 0 then c
    else if m.source == 0 then c.(offset := 0)                         // another node's request
    else if received != uid[..|received|] then c.(offset := 0)
    else if |received| < UNIQUE_ID_SIZE then c.(offset := |received|)
    else if AllocatedId(m.payload) >= 1 then c.(nodeId := AllocatedId(m.payload))
    else c
  }

  /** The next request: a flag for the first piece, and up to six bytes of the unique ID. */
  function NextPiece(c: Client, uid: UniqueId): (r: seq<bv8>)
    requires c.offset < UNIQUE_ID_SIZE
    ensures 2 <= |r| <= 1 + MAX_REQUEST_PIECE
  {
    var size := if UNIQUE_ID_SIZE - c.offset > MAX_REQUEST_PIECE then MAX_REQUEST_PIECE else UNIQUE_ID_SIZE - c.offset;
    [if c.offset == 0 then 1 else 0] + uid[c.offset..c.offset + size]
  }

  class AllocationClient {
    const uniqueId: UniqueId
    var nodeId: nat
    var offset: nat

    constructor (uniqueId: UniqueId)
      ensures this.uniqueId == uniqueId && Abs() == Client(0, 0)
    {
      this.uniqueId := uniqueId;
      nodeId, offset := 0, 0;
    }

    function Abs(): Client
      reads this
    {
      Client(nodeId, offset)
    }

    predicate Valid()
      reads this
    {
      offset < UNIQUE_ID_SIZE && nodeId < 128
    }

    /** The allocation branch of the reception callback. It fails at the assertion on the length of the unique ID: that
        is computed unsigned, so that an empty payload counts as a very long one. */
    method OnAllocation(m: Message) returns (ok: bool)
      requires Valid()
      modifies this
      ensures Valid() && ok == old(Tolerates(Abs(), m))
      ensures Abs() == if ok then Hear(old(Abs()), uniqueId, m) else old(Abs())
    {
      if nodeId == 0 {
        if m.source == 0 {
          offset := 0;
          return true;
        }
        var length := if m.payload == [] then 0xFFFF_FFFF else |m.payload| - 1;
        var received: seq<bv8> := [];
        while |received| < length
          invariant |received| <= length && |received| <= UNIQUE_ID_SIZE
          invariant m.payload != [] ==> received == m.payload[1..1 + |received|]
        {
          if |received| >= UNIQUE_ID_SIZE {
            return false;
          }
          var b: bv8 := *;                                             // nothing is read behind the end
          if 1 + |received| < |m.payload| {
            b := m.payload[1 + |received|];
          }
          received := received + [b];
        }
        assert received == m.payload[1..];
        if received != uniqueId[..|received|] {
          offset := 0;
          return true;
        }
        if |received| < UNIQUE_ID_SIZE {
          offset := |received|;
        } else {
          var granted := AllocatedId(m.payload);
          assert granted <= 127;
          if 1 <= granted <= 127 {
            nodeId := granted;
          }
        }
      }
      return true;
    }

    /** Builds a request; unless a response updates it, the next one starts over. */
    method NextRequest() returns (request: seq<bv8>)
      requires Valid() && nodeId == 0
      modifies this`offset
      ensures Valid() && request == NextPiece(old(Abs()), uniqueId) && Abs() == old(Abs()).(offset := 0)
    {
      var flag: bv8 := 0;
      if offset == 0 {
        flag := flag | 1;
      }
      var size := UNIQUE_ID_SIZE - offset;
      if size > MAX_REQUEST_PIECE {
        size := MAX_REQUEST_PIECE;
      }
      assert offset < UNIQUE_ID_SIZE && size <= MAX_REQUEST_PIECE && size > 0 && size + offset <= UNIQUE_ID_SIZE;
      request := [flag] + uniqueId[offset..offset + size];
      offset := 0;
    }
  }

  /** A request goes out as an anonymous single-frame message. */
  lemma RequestIsAnonymous(c: Client, uid: UniqueId, signature: bv64)
    requires c.offset < UNIQUE_ID_SIZE
    ensures var p := BroadcastPlan(0, signature, ALLOCATION_TYPE_ID, PRIORITY_LOW, NextPiece(c, uid));
            && p.Planned? && HeaderOf(p.id + FRAME_EFF) == Header(PRIORITY_LOW, ALLOCATION_TYPE_ID, Broadcast, 0, 0)
            && |TxFrames(p.id, 0, p.crc, NextPiece(c, uid))| == 1
  {
    hide HeaderOf;
    BroadcastIdentifies(0, signature, ALLOCATION_TYPE_ID, PRIORITY_LOW, NextPiece(c, uid));
  }

  // ---------------------------------------------------------------------------------------------
  // Safety, whatever is heard

  /** The node sends a request, or hears a message. */
  datatype Event = Ask | Heard(message: Message)

  predicate Possible(c: Client, e: Event) {
    match e
    case Ask => c.nodeId == 0 && c.offset < UNIQUE_ID_SIZE
    case Heard(m) => Tolerates(c, m)
  }

  function Next(c: Client, uid: UniqueId, e: Event): Client
    requires Possible(c, e)
  {
    match e
    case Ask => c.(offset := 0)
    case Heard(m) => Hear(c, uid, m)
  }

  predicate IsRun(c: Client, uid: UniqueId, events: seq<Event>)
    decreases |events|
  {
    events != [] ==> Possible(c, events[0]) && IsRun(Next(c, uid, events[0]), uid, events[1..])
  }

  function Run(c: Client, uid: UniqueId, events: seq<Event>): Client
    requires IsRun(c, uid, events)
    decreases |events|
  {
    if events == [] then c else Run(Next(c, uid, events[0]), uid, events[1..])
  }

  /** The message of an allocator that carries the whole unique ID and a node ID. */
  predicate Allocates(uid: UniqueId, e: Event, id: nat) {
    && e.Heard? && Fits(e.message) && e.message.source != 0
    && e.message.payload[1..] == uid && AllocatedId(e.message.payload) == id
  }

  /** In every run the offset stays within the unique ID; a node ID, once set, stays; and it is set only by a message
      that carries the node's whole unique ID. */
  lemma {:induction false} RunSafe(c: Client, uid: UniqueId, events: seq<Event>)
    requires IsRun(c, uid, events) && c.offset < UNIQUE_ID_SIZE
    ensures var d := Run(c, uid, events);
            && d.offset < UNIQUE_ID_SIZE
            && (c.nodeId != 0 ==> d.nodeId == c.nodeId)
            && (c.nodeId == 0 && d.nodeId != 0 ==>
                  exists i :: 0 <= i < |events| && Allocates(uid, events[i], d.nodeId)
                              && IsRun(c, uid, events[..i]) && Run(c, uid, events[..i]).nodeId == 0)
    decreases |events|
  {
    hide AllocatedId;
    if events != [] {
      var e, next := events[0], Next(c, uid, events[0]);
      RunSafe(next, uid, events[1..]);
      var d := Run(c, uid, events);
      if c.nodeId == 0 && d.nodeId != 0 {
        if next.nodeId != 0 {
          WholeId(uid, e.message);
          assert Allocates(uid, events[0], d.nodeId) && events[..0] == [];
        } else {
          var j :| 0 <= j < |events[1..]| && Allocates(uid, events[1..][j], d.nodeId)
                   && IsRun(next, uid, events[1..][..j]) && Run(next, uid, events[1..][..j]).nodeId == 0;
          assert events[..j + 1][1..] == events[1..][..j];
          assert Allocates(uid, events[j + 1], d.nodeId);
        }
      }
    }
  }

  lemma WholeId(uid: UniqueId, m: Message)
    requires Fits(m) && |m.payload| == 1 + UNIQUE_ID_SIZE && m.payload[1..] == uid[..UNIQUE_ID_SIZE]
    ensures m.payload[1..] == uid
  {
  }

  // ---------------------------------------------------------------------------------------------
  // Which piece comes next

  /** An allocator's message that confirms the first k bytes of the unique ID. */
  predicate Confirms(uid: UniqueId, e: Event, k: nat)
    requires k <= UNIQUE_ID_SIZE
  {
    e.Heard? && e.message.source != 0 && e.message.payload != [] && e.message.payload[1..] == uid[..k]
  }

  /** An allocator has confirmed the first k bytes, and nothing has come after that but messages with the whole unique
      ID: no request, neither the node's own nor another's, and no message with another unique ID. */
  ghost predicate Standing(uid: UniqueId, events: seq<Event>, k: nat)
    requires k <= UNIQUE_ID_SIZE
  {
    exists i | 0 <= i < |events| ::
      Confirms(uid, events[i], k) && forall j | i < j < |events| :: Confirms(uid, events[j], UNIQUE_ID_SIZE)
  }

  lemma {:induction false} RunSnoc(c: Client, uid: UniqueId, events: seq<Event>, e: Event)
    requires IsRun(c, uid, events + [e])
    ensures IsRun(c, uid, events) && Possible(Run(c, uid, events), e)
    ensures Run(c, uid, events + [e]) == Next(Run(c, uid, events), uid, e)
    decreases |events|
  {
    hide Possible, Next;
    if events == [] {
      assert events + [e] == [e] && [e][1..] == [];
    } else {
      assert (events + [e])[1..] == events[1..] + [e];
      RunSnoc(Next(c, uid, events[0]), uid, events[1..], e);
    }
  }

  /** The node goes on behind the first k bytes exactly if their confirmation stands. */
  lemma {:induction false} OffsetIff(uid: UniqueId, events: seq<Event>, k: nat)
    requires IsRun(Client(0, 0), uid, events) && Run(Client(0, 0), uid, events).nodeId == 0 && 0 < k < UNIQUE_ID_SIZE
    ensures Run(Client(0, 0), uid, events).offset == k <==> Standing(uid, events, k)
  {
    if events != [] {
      var front, e := events[..|events| - 1], events[|events| - 1];
      assert events == front + [e];
      RunSnoc(Client(0, 0), uid, front, e);
      if Run(Client(0, 0), uid, front).nodeId != 0 {
        KeepsId(Run(Client(0, 0), uid, front), uid, e);
      }
      OffsetIff(uid, front, k);
      StandingMore(uid, front, e, k);
      Confirmed(Run(Client(0, 0), uid, front), uid, e, k);
    }
  }

  lemma KeepsId(c: Client, uid: UniqueId, e: Event)
    requires Possible(c, e) && c.nodeId != 0
    ensures Next(c, uid, e).nodeId == c.nodeId
  {
  }

  lemma StandingMore(uid: UniqueId, events: seq<Event>, e: Event, k: nat)
    requires k <= UNIQUE_ID_SIZE
    ensures Standing(uid, events + [e], k) <==>
            Confirms(uid, e, k) || (Confirms(uid, e, UNIQUE_ID_SIZE) && Standing(uid, events, k))
  {
    hide Confirms;
    var more := events + [e];
    if Confirms(uid, e, k) {
      assert more[|events|] == e;
    }
    if Confirms(uid, e, UNIQUE_ID_SIZE) && Standing(uid, events, k) {
      var i :| 0 <= i < |events| && Confirms(uid, events[i], k)
               && forall j | i < j < |events| :: Confirms(uid, events[j], UNIQUE_ID_SIZE);
      assert Confirms(uid, more[i], k);
      forall j | i < j < |more| ensures Confirms(uid, more[j], UNIQUE_ID_SIZE) {
      }
    }
    if Standing(uid, more, k) {
      var i :| 0 <= i < |more| && Confirms(uid, more[i], k)
               && forall j | i < j < |more| :: Confirms(uid, more[j], UNIQUE_ID_SIZE);
      if i < |events| {
        assert Confirms(uid, more[|events|], UNIQUE_ID_SIZE);
        assert Confirms(uid, events[i], k);
        forall j | i < j < |events| ensures Confirms(uid, events[j], UNIQUE_ID_SIZE) {
          assert Confirms(uid, more[j], UNIQUE_ID_SIZE);
        }
      }
    }
  }

  /** One event, by what it confirms. */
  lemma Confirmed(c: Client, uid: UniqueId, e: Event, k: nat)
    requires Possible(c, e) && c.nodeId == 0 && Next(c, uid, e).nodeId == 0 && 0 < k < UNIQUE_ID_SIZE
    ensures Next(c, uid, e).offset == k <==>
            Confirms(uid, e, k) || (Confirms(uid, e, UNIQUE_ID_SIZE) && c.offset == k)
  {
    hide AllocatedId;
    if e.Heard? && e.message.source != 0 {
      var received := e.message.payload[1..];
      if received == uid[..|received|] {
        assert Confirms(uid, e, |received|);
        assert Confirms(uid, e, k) <==> |received| == k;
        assert Confirms(uid, e, UNIQUE_ID_SIZE) <==> |received| == UNIQUE_ID_SIZE;
      }
    }
  }

  /** What the next request holds, whatever has happened: a flag and the first six bytes, or what follows the bytes
      whose confirmation stands. */
  lemma NextRequestIs(uid: UniqueId, events: seq<Event>)
    requires IsRun(Client(0, 0), uid, events) && Run(Client(0, 0), uid, events).nodeId == 0
    ensures var d := Run(Client(0, 0), uid, events);
            && d.offset < UNIQUE_ID_SIZE
            && (forall k: nat | 0 < k < UNIQUE_ID_SIZE && Standing(uid, events, k) ::
                  NextPiece(d, uid) == [0] + uid[k..if k + 6 < 16 then k + 6 else 16])
            && ((forall k: nat | 0 < k < UNIQUE_ID_SIZE :: !Standing(uid, events, k)) ==>
                  NextPiece(d, uid) == [1] + uid[..6])
  {
    hide Standing;
    RunSafe(Client(0, 0), uid, events);
    forall k: nat | 0 < k < UNIQUE_ID_SIZE
      ensures Run(Client(0, 0), uid, events).offset == k <==> Standing(uid, events, k)
    {
      OffsetIff(uid, events, k);
    }
    var d := Run(Client(0, 0), uid, events);
    if d.offset > 0 {
      assert Standing(uid, events, d.offset);
    }
  }

  // ---------------------------------------------------------------------------------------------
  // With an allocator

  /** An allocator (UAVCAN v0, section 6): it collects the pieces of one unique ID and confirms what it has. */
  datatype Allocator = Allocator(collected: seq<bv8>)

  function Collect(a: Allocator, request: seq<bv8>): Allocator
    requires request != []
  {
    if request[0] & 1 != 0 then Allocator(request[1..]) else Allocator(a.collected + request[1..])
  }

  /** It answers with what it collected, and with a node ID once that is a whole unique ID. */
  function Answer(a: Allocator, source: nat, id: bv8): Message {
    Message(source, [if |a.collected| == UNIQUE_ID_SIZE then id << 1 else 0] + a.collected)
  }

  datatype Exchange = Exchange(client: Client, allocator: Allocator, requests: seq<seq<bv8>>)

  /** A request reaches the allocator, and its answer the node. */
  function Round(x: Exchange, uid: UniqueId, source: nat, id: bv8): Exchange
    requires x.client.nodeId == 0 && x.client.offset < UNIQUE_ID_SIZE
    requires |Collect(x.allocator, NextPiece(x.client, uid)).collected| <= UNIQUE_ID_SIZE
  {
    var request := NextPiece(x.client, uid);
    var a := Collect(x.allocator, request);
    Exchange(Hear(x.client.(offset := 0), uid, Answer(a, source, id)), a, x.requests + [request])
  }

  /** The node has offered the first n bytes, and the allocator has confirmed them. */
  predicate Agreed(x: Exchange, uid: UniqueId, n: nat) {
    n < UNIQUE_ID_SIZE && x.client == Client(0, n) && (n > 0 ==> x.allocator.collected == uid[..n])
  }

  lemma OneRound(x: Exchange, uid: UniqueId, n: nat, source: nat, id: bv8)
    requires Agreed(x, uid, n) && source != 0 && 1 <= id < 128
    ensures var size := if UNIQUE_ID_SIZE - n > MAX_REQUEST_PIECE then MAX_REQUEST_PIECE else UNIQUE_ID_SIZE - n;
            && |Collect(x.allocator, NextPiece(x.client, uid)).collected| <= UNIQUE_ID_SIZE
            && var y := Round(x, uid, source, id);
            && y.requests == x.requests + [[if n == 0 then 1 else 0] + uid[n..n + size]]
            && (n + size < UNIQUE_ID_SIZE ==> Agreed(y, uid, n + size))
            && (n + size == UNIQUE_ID_SIZE ==> y.client.nodeId == id as nat)
  {
    var size := if UNIQUE_ID_SIZE - n > MAX_REQUEST_PIECE then MAX_REQUEST_PIECE else UNIQUE_ID_SIZE - n;
    var request := NextPiece(x.client, uid);
    var a := Collect(x.allocator, request);
    assert request[1..] == uid[n..n + size];
    FlagBit();
    assert a.collected == uid[..n + size];
    var m := Answer(a, source, id);
    assert m.payload[1..] == a.collected;
    ShiftedId(id);
  }

  lemma FlagBit()
    ensures (1 as bv8) & 1 != 0 && (0 as bv8) & 1 == 0
  {
  }

  lemma ShiftedId(id: bv8)
    requires id < 128
    ensures AllocatedId([id << 1]) == id as nat
  {
    assert (id << 1) >> 1 == id;
    SevenBits(id);
  }

  lemma SevenBits(id: bv8)
    requires id < 128
    ensures id as bv7 as nat == id as nat
  {
  }

  /** From any earlier state of the allocator: three requests, with 6, 6 and 4 bytes, and the node has its ID. */
  lemma ThreeRequests(uid: UniqueId, before: Allocator, source: nat, id: bv8)
    requires source != 0 && 1 <= id < 128
    ensures var x := Exchange(Client(0, 0), before, []);
            && |Collect(x.allocator, NextPiece(x.client, uid)).collected| <= UNIQUE_ID_SIZE
            && var y := Round(x, uid, source, id);
            && Agreed(y, uid, 6)
            && |Collect(y.allocator, NextPiece(y.client, uid)).collected| <= UNIQUE_ID_SIZE
            && var z := Round(y, uid, source, id);
            && Agreed(z, uid, 12)
            && |Collect(z.allocator, NextPiece(z.client, uid)).collected| <= UNIQUE_ID_SIZE
            && var w := Round(z, uid, source, id);
            && w.client.nodeId == id as nat
            && w.requests == [[1] + uid[..6], [0] + uid[6..12], [0] + uid[12..]]
  {
    hide NextPiece, Collect, Hear, Answer;
    var x := Exchange(Client(0, 0), before, []);
    OneRound(x, uid, 0, source, id);
    var y := Round(x, uid, source, id);
    OneRound(y, uid, 6, source, id);
    var z := Round(y, uid, source, id);
    OneRound(z, uid, 12, source, id);
    assert uid[0..6] == uid[..6] && uid[12..16] == uid[12..];
  }
}

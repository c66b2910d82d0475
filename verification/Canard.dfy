/** The libcanard instance: a pool of blocks in one arena, the TX queue, and the reception of transfers. */
module Canard {
  import opened CanFrames
  import opened Pool
  import opened Reception
  import opened Contents
  import opened Steps
  import opened QueueSteps
  import opened Conservation
  import opened Transmission
  import Crc = TransferCrc

  /** A received transfer as the application sees it: pointers to head, blocks and the tail of the last frame. */
  class RxTransfer {
    var timestamp: nat
    var head: seq<bv8>
    var middle: Link
    var tail: Option<seq<bv8>>
    var length: nat
    const header: Header
    const transferId: bv8

    constructor (timestamp: nat, head: seq<bv8>, middle: Link, tail: Option<seq<bv8>>, length: nat,
                 header: Header, transferId: bv8)
      ensures this.timestamp == timestamp && this.head == head && this.middle == middle && this.tail == tail
      ensures this.length == length && this.header == header && this.transferId == transferId
    {
      this.timestamp, this.head, this.middle, this.tail := timestamp, head, middle, tail;
      this.length, this.header, this.transferId := length, header, transferId;
    }
  }

  /** What a frame may change besides the state it belongs to. */
  datatype Surroundings = Surroundings(nodeId: nat, free: nat, tx: seq<Frame>, log: seq<Transfer>, readable: bool)

  function DeliveredBy(o: Outcome): seq<Transfer> {
    if o.delivered.Some? then [o.delivered.value] else []
  }

  /** From a healthy state, a frame that trips nothing leaves state, pool, log and queue the way o says. Calls out of
      the callback find free what o leaves free, but for the blocks the transfer still holds. */
  ghost predicate Achieved(o: Outcome, s: RxState, lent: nat, replies: seq<Outgoing>, a: Surroundings, s': RxState,
                           b: Surroundings)
    requires a.nodeId < 128 && AllProper(replies)
  {
    && s' == o.state && b.nodeId == a.nodeId && b.log == a.log + DeliveredBy(o) && (a.readable ==> b.readable)
    && b.free + |b.tx| + o.state.blocks == a.free + |a.tx| + s.blocks
    && (o.delivered.None? ==> b.tx == a.tx)
    && (o.delivered.Some? ==>
          && o.state.blocks + lent <= a.free + s.blocks
          && b.tx == QueueAfterCalls(a.nodeId, a.tx, a.free + s.blocks - o.state.blocks - lent, replies))
  }

  lemma AchievedQuietly(s: RxState, lent: nat, replies: seq<Outgoing>, a: Surroundings, s': RxState, b: Surroundings)
    requires a.nodeId < 128 && AllProper(replies)
    requires s'.blocks <= a.free + s.blocks && b == a.(free := a.free + s.blocks - s'.blocks)
    ensures Achieved(Outcome(s', None), s, lent, replies, a, s', b)
  {
  }

  /** Restarting a state frees blocks before the frame is looked at. */
  lemma AchievedAfter(o: Outcome, s: RxState, c: RxState, lent: nat, replies: seq<Outgoing>, a: Surroundings,
                      a': Surroundings, s': RxState, b: Surroundings)
    requires a.nodeId < 128 && AllProper(replies) && c.blocks <= a.free + s.blocks
    requires a' == a.(free := a.free + s.blocks - c.blocks) && Achieved(o, c, lent, replies, a', s', b)
    ensures Achieved(o, s, lent, replies, a, s', b)
  {
  }

  const MEM_BLOCK_SIZE := 32
  const CAPACITY_LIMIT := 0xFFFF

  class CanardInstance {
    const arena: array<Block>
    const accept: Accept
    var nodeId: nat
    var freeList: Link
    var txQueue: Link
    var rxStates: Link
    var capacity: nat
    var currentUsage: nat
    var peakUsage: nat
    ghost var lent: Link            // the blocks of the transfer the application is looking at
    ghost var lists: Lists
    ghost var log: seq<Transfer>    // the transfers handed to the application so far
    ghost var readable: bool        // the pointers of each of them covered its payload

    ghost function H(): Heap
      reads this, arena
    {
      Heap(arena[..], freeList, txQueue, rxStates, lent)
    }

    /** Every block is in one list (or held), the statistics count the blocks that are not free, and the node ID has 7
        bits. */
    ghost predicate Consistent()
      reads this, arena
    {
      && Inv(H(), lists)
      && capacity == arena.Length && currentUsage == capacity - FreeCount(lists)
      && currentUsage <= peakUsage <= capacity && nodeId < 128
    }

    /** Between API calls no block is held or lent, and no two states have the same descriptor. */
    ghost predicate Valid()
      reads this, arena
    {
      Consistent() && HeldSet(lists) == {} && List(lists, InTransfer) == [] && Unique(RxOf(H(), lists))
    }

    /** The logical value. */
    ghost function Abs(): Node
      reads this, arena
    {
      Node(nodeId, FreeCount(lists), TxOf(H(), lists), RxOf(H(), lists), log)
    }

    ghost function Around(): Surroundings
      reads this, arena
    {
      Surroundings(nodeId, FreeCount(lists), TxOf(H(), lists), log, readable)
    }

    constructor (memory: nat, accept: Accept)
      ensures Valid() && this.accept == accept && fresh(arena)
      ensures capacity == if memory / 32 > 0xFFFF then 0xFFFF else memory / 32
      ensures Abs() == Node(0, capacity, [], [], []) && peakUsage == 0 && readable
    {
      hide Inv, HeldSet, RxOf, TxOf, FreeCount, List, InitialLists, Threaded, Unique;
      var count := memory / MEM_BLOCK_SIZE;
      if count > CAPACITY_LIMIT {
        count := CAPACITY_LIMIT;
      }
      arena := new Block[count](_ => Block.FreeBlock(NULL));
      this.accept := accept;
      nodeId, txQueue, rxStates, lent := 0, NULL, NULL, NULL;
      freeList, capacity, currentUsage, peakUsage := NULL, count, 0, 0;
      log, readable := [], true;
      new;
      InitPoolAllocator();
    }

    /** Threads the free list through the arena. */
    method InitPoolAllocator()
      requires txQueue == rxStates == lent == NULL && capacity == arena.Length && nodeId < 128
      modifies arena, this`freeList, this`lists, this`currentUsage, this`peakUsage
      ensures Valid() && FreeCount(lists) == capacity && currentUsage == peakUsage == 0
      ensures RxOf(H(), lists) == [] && TxOf(H(), lists) == []
    {
      hide Inv, HeldSet, RxOf, TxOf, FreeCount, List, InitialLists, Threaded, Unique;
      var i, n := 0, arena.Length;
      freeList := NULL;
      while i < n
        invariant i <= n && (i > 0 ==> freeList == 0)
        invariant forall k: nat {:trigger arena[k]} | k < i - 1 :: arena[k] == Block.FreeBlock(k + 1)
      {
        if i == 0 {
          freeList := i;
        } else {
          arena[i - 1] := Block.FreeBlock(i);
        }
        i := i + 1;
      }
      if n == 0 {
        freeList := NULL;
      } else {
        arena[n - 1] := Block.FreeBlock(NULL);
      }
      currentUsage, peakUsage, lists := 0, 0, InitialLists(n);
      ThreadedIs(H());
      InitialPool(H());
      UniqueEmpty();
    }

    /** Every block is in exactly one list, and the lists add up: between calls, and while the application looks at a
        transfer. */
    lemma Conserved()
      requires Consistent() && HeldSet(lists) == {}
      ensures Abs().free + |Abs().tx| + Taken(Abs().rx) + |List(lists, InTransfer)| == capacity
      ensures capacity == currentUsage + Abs().free && (Valid() ==> List(lists, InTransfer) == [])
      ensures currentUsage <= peakUsage <= capacity
      ensures forall b: nat | b < capacity :: b < |lists.tag| && Lies(lists, b, lists.tag[b])
      ensures forall b: nat, k, k' :: Lies(lists, b, k) && Lies(lists, b, k') ==> k == k'
    {
      hide Inv, HeldSet, RxOf, TxOf, FreeCount, List;
      BlocksConserved(H(), lists);
      Keys(H(), lists);
      forall b: nat | b < capacity ensures Lies(lists, b, lists.tag[b]) {
        TagListed(H(), lists, b);
      }
      ListedOnce(H(), lists);
    }

    // -------------------------------------------------------------------------------------------
    // Pool allocator

    method AllocateBlock(ghost r: nat) returns (b: Link)
      requires Consistent()
      modifies this`freeList, this`currentUsage, this`peakUsage, this`lists
      ensures Consistent() && peakUsage == if currentUsage > old(peakUsage) then currentUsage else old(peakUsage)
      ensures b == NULL <==> old(FreeCount(lists)) == 0
      ensures b == NULL ==> lists == old(lists) && H() == old(H())
      ensures b != NULL ==> 0 <= b < arena.Length && old(List(lists, InFree)) != [] && b == old(List(lists, InFree))[0]
      ensures b != NULL ==> lists == Without(old(lists), InFree, 0) && H() == old(H()).(free := freeList)
      ensures b != NULL ==>
              KeptExcept(old(H()), old(lists), H(), lists, r) && FreeCount(lists) == old(FreeCount(lists)) - 1
                            && BuffersOf(lists, r) == old(BuffersOf(lists, r)) && lists.tag == old(lists.tag)[b := Held]
                            && b < |old(lists.tag)| && old(lists.tag)[b] == InFree
    {
      hide Inv, KeptExcept, Without;
      Keys(H(), lists);
      Elements(H(), lists, InFree);
      if freeList == NULL {
        return NULL;
      }
      TakeFree(H(), lists, r);
      FreeListFits(H(), lists);
      b := freeList;
      freeList := arena[b].next;
      lists := Without(lists, InFree, 0);
      currentUsage := currentUsage + 1;
      if peakUsage < currentUsage {
        peakUsage := currentUsage;
      }
    }

    method FreeBlock(b: nat, ghost r: nat)
      requires Consistent() && b < |lists.tag| && lists.tag[b] == Held
      modifies arena, this`freeList, this`currentUsage, this`lists
      ensures Consistent()
      ensures lists == With(old(lists), InFree, 0, b)
      ensures H() == old(H()).(mem := old(arena[..])[b := Block.FreeBlock(old(freeList))], free := b)
      ensures KeptExcept(old(H()), old(lists), H(), lists, r) && FreeCount(lists) == old(FreeCount(lists)) + 1
      ensures BuffersOf(lists, r) == old(BuffersOf(lists, r)) && lists.tag == old(lists.tag)[b := InFree]
    {
      hide Inv, KeptExcept, With;
      Keys(H(), lists);
      GiveFree(H(), lists, b, r);
      FreeListFits(H(), lists);
      arena[b] := Block.FreeBlock(freeList);
      freeList := b;
      lists := With(lists, InFree, 0, b);
      assert currentUsage > 0;
      currentUsage := currentUsage - 1;
    }

    // -------------------------------------------------------------------------------------------
    // Buffer blocks of a reception state

    /** Chains a freshly allocated block to the end of the state's list, after `last`. */
    method LinkBuffer(r: nat, last: Link, b: nat, data: seq<bv8>)
      requires Consistent() && r < |lists.tag| && lists.tag[r] == InRx && b < |lists.tag| && lists.tag[b] == Held
      requires last == (if BuffersOf(lists, r) == [] then NULL else BuffersOf(lists, r)[|BuffersOf(lists, r)| - 1])
      requires |data| == BLOCK_SIZE
      modifies arena, this`lists
      ensures Consistent() && lists.tag == old(lists.tag)[b := InBuffers(r)]
      ensures BuffersOf(lists, r) == old(BuffersOf(lists, r)) + [b] && FreeCount(lists) == old(FreeCount(lists))
      ensures KeptExcept(old(H()), old(lists), H(), lists, r)
      ensures SameContents(old(arena[..]), arena[..], old(lists.tag))
    {
      hide Inv, KeptExcept, With, SameContents;
      ChainBuffer(H(), lists, r, b, data);
      ghost var h', s := Chained(H(), r, BuffersOf(lists, r), b, data), BuffersOf(lists, r);
      arena[b] := BufferBlock(NULL, data);
      if last == NULL {
        arena[r] := arena[r].(buffers := b);
      } else {
        arena[last] := arena[last].(next := b);
      }
      assert H() == h';
      lists := With(lists, InBuffers(r), |s|, b);
    }

    /** Allocates a block of 28 arbitrary bytes and chains it to the end of the state's list, after `last`. */
    method CreateBufferBlock(r: nat, last: Link) returns (b: Link)
      requires Consistent() && r < |lists.tag| && lists.tag[r] == InRx
      requires last == (if BuffersOf(lists, r) == [] then NULL else BuffersOf(lists, r)[|BuffersOf(lists, r)| - 1])
      modifies arena, this`freeList, this`currentUsage, this`peakUsage, this`lists
      ensures Consistent() && peakUsage >= old(peakUsage)
      ensures r < |lists.tag| && lists.tag[r] == InRx && HeldSet(lists) == old(HeldSet(lists))
      ensures KeptExcept(old(H()), old(lists), H(), lists, r) && FieldsOf(arena[r]) == old(FieldsOf(arena[r]))
      ensures b == NULL <==> old(FreeCount(lists)) == 0
      ensures BuffersOf(lists, r) == old(BuffersOf(lists, r)) + if b == NULL then [] else [b]
      ensures FreeCount(lists) == old(FreeCount(lists)) - if b == NULL then 0 else 1
      ensures b != NULL ==> 0 <= b < arena.Length
      ensures forall n: nat | n <= HEAD_SIZE + BLOCK_SIZE * old(|BuffersOf(lists, r)|) ::
                Prefix(H(), lists, r, n) == old(Prefix(H(), lists, r, n))
    {
      hide Inv, KeptExcept, Without, SameContents, FieldsOf, HeldSet, Prefix, List, BuffersOf, FreeCount;
      ghost var h0, l0 := H(), lists;
      Keys(h0, l0);
      KeptReflexive(h0, l0, r);
      b := AllocateBlock(r);
      if b == NULL {
        return;
      }
      ghost var h1, l1 := H(), lists;
      var data: seq<bv8> := *;
      if |data| != BLOCK_SIZE {
        data := seq(BLOCK_SIZE, _ => 0);
      }
      LinkBuffer(r, last, b, data);
      KeptTransitive(h0, l0, h1, l1, H(), lists, r);
      HeldAfterMove(l0.tag, lists.tag, b, InBuffers(r));
      Appended(h0, l0, H(), lists, r, b);
    }

    /** Frees the state's buffer blocks. */
    method ReleaseStatePayload(r: nat)
      requires Consistent() && r < |lists.tag| && lists.tag[r] == InRx
      modifies arena, this`freeList, this`currentUsage, this`lists
      ensures Consistent() && r < |lists.tag| && lists.tag[r] == InRx
      ensures BuffersOf(lists, r) == [] && FreeCount(lists) == old(FreeCount(lists) + |BuffersOf(lists, r)|)
      ensures FieldsOf(arena[r]) == old(FieldsOf(arena[r])).(length := 0)
      ensures KeptExcept(old(H()), old(lists), H(), lists, r) && HeldSet(lists) == old(HeldSet(lists))
    {
      hide Inv, KeptExcept, Without, With;
      StateBlock(H(), lists, r);
      ghost var h0, l0 := H(), lists;
      KeptReflexive(h0, l0, r);
      while arena[r].buffers != NULL
        invariant Consistent() && r < |lists.tag| && lists.tag[r] == InRx && arena[r].RxBlock?
        invariant InBuffers(r) in lists.at
        invariant arena[r].buffers == At(BuffersOf(lists, r), 0)
        invariant FreeCount(lists) + |BuffersOf(lists, r)| == old(FreeCount(lists) + |BuffersOf(lists, r)|)
        invariant FieldsOf(arena[r]) == old(FieldsOf(arena[r]))
        invariant KeptExcept(h0, l0, H(), lists, r) && HeldSet(lists) == old(HeldSet(lists))
        decreases |BuffersOf(lists, r)|
      {
        DropBuffer(H(), lists, r);
        ghost var h1, l1 := H(), lists;
        var b := arena[r].buffers;
        arena[r] := arena[r].(buffers := arena[b].next);
        assert H() == h1.(mem := h1.mem[r := h1.mem[r].(buffers := h1.mem[b].next)]);
        lists := Without(lists, InBuffers(r), 0);
        KeptTransitive(h0, l0, h1, l1, H(), lists, r);
        ghost var h2, l2 := H(), lists;
        FreeBlock(b, r);
        KeptTransitive(h0, l0, h2, l2, H(), lists, r);
        StateBlock(H(), lists, r);
      }
      StateBlock(H(), lists, r);
      WriteFields(H(), lists, r, arena[r].fields.(length := 0));
      ghost var h3, l3 := H(), lists;
      arena[r] := arena[r].(fields := arena[r].fields.(length := 0));
      assert H() == h3.(mem := h3.mem[r := arena[r]]);
      KeptTransitive(h0, l0, h3, l3, H(), lists, r);
    }

    /** Copies bytes into the part of the head that is still free. */
    method FillHead(r: nat, data: seq<bv8>) returns (dataIndex: nat)
      requires Consistent() && r < |lists.tag| && lists.tag[r] == InRx && r < arena.Length
      requires FieldsOf(arena[r]).length < HEAD_SIZE
      modifies arena
      ensures Consistent() && KeptExcept(old(H()), lists, H(), lists, r)
      ensures var n := old(FieldsOf(arena[r])).length;
              && dataIndex == (if |data| < HEAD_SIZE - n then |data| else HEAD_SIZE - n)
              && Prefix(H(), lists, r, n + dataIndex) == old(Prefix(H(), lists, r, n)) + data[..dataIndex]
      ensures |FieldsOf(arena[r]).head| == HEAD_SIZE
      ensures FieldsOf(arena[r]) == old(FieldsOf(arena[r])).(head := FieldsOf(arena[r]).head)
    {
      hide Inv, KeptExcept, Prefix;
      StateBlock(H(), lists, r);
      ghost var h0 := H();
      KeptReflexive(h0, lists, r);
      var i := arena[r].fields.length;
      ghost var n := i;
      dataIndex := 0;
      while i < HEAD_SIZE && dataIndex < |data|
        invariant Consistent() && arena[r].RxBlock? && |arena[r].fields.head| == HEAD_SIZE
        invariant i == n + dataIndex <= HEAD_SIZE && dataIndex <= |data|
        invariant KeptExcept(h0, lists, H(), lists, r)
        invariant Prefix(H(), lists, r, i) == Prefix(h0, lists, r, n) + data[..dataIndex]
        invariant arena[r].fields == old(FieldsOf(arena[r])).(head := arena[r].fields.head)
      {
        WriteHead(H(), lists, r, i, data[dataIndex]);
        ghost var h1 := H();
        arena[r] := arena[r].(fields := arena[r].fields.(head := arena[r].fields.head[i := data[dataIndex]]));
        assert H() == h1.(mem := h1.mem[r := arena[r]]);
        KeptTransitive(h0, lists, h1, lists, H(), lists, r);
        assert data[..dataIndex + 1] == data[..dataIndex] + [data[dataIndex]];
        i := i + 1;
        dataIndex := dataIndex + 1;
      }
    }

    /** Copies bytes to byte `index` of the state's last block and on, up to its end. */
    method FillBlock(r: nat, block: nat, index: nat, data: seq<bv8>, start: nat) returns (i: nat, dataIndex: nat)
      requires Consistent() && r < |lists.tag| && lists.tag[r] == InRx && r < arena.Length
      requires BuffersOf(lists, r) != [] && block == BuffersOf(lists, r)[|BuffersOf(lists, r)| - 1]
      requires index < BLOCK_SIZE && start < |data|
      modifies arena
      ensures Consistent() && KeptExcept(old(H()), lists, H(), lists, r)
      ensures FieldsOf(arena[r]) == old(FieldsOf(arena[r]))
      ensures start < dataIndex <= |data| && i == index + (dataIndex - start) <= BLOCK_SIZE
      ensures dataIndex == |data| || i == BLOCK_SIZE
      ensures var p := HEAD_SIZE + BLOCK_SIZE * (|BuffersOf(lists, r)| - 1);
              Prefix(H(), lists, r, p + i) == old(Prefix(H(), lists, r, p + index)) + data[start..dataIndex]
    {
      hide Inv, KeptExcept, Prefix;
      ghost var h0 := H();
      ghost var p := HEAD_SIZE + BLOCK_SIZE * (|BuffersOf(lists, r)| - 1);
      StateBlock(h0, lists, r);
      KeptReflexive(h0, lists, r);
      i, dataIndex := index, start;
      while i < BLOCK_SIZE && dataIndex < |data|
        invariant Consistent() && KeptExcept(h0, lists, H(), lists, r) && FieldsOf(arena[r]) == FieldsOf(h0.mem[r])
        invariant start <= dataIndex <= |data| && i == index + (dataIndex - start) <= BLOCK_SIZE
        invariant Prefix(H(), lists, r, p + i) == Prefix(h0, lists, r, p + index) + data[start..dataIndex]
      {
        WriteLastBuffer(H(), lists, r, i, data[dataIndex]);
        ghost var h1 := H();
        arena[block] := arena[block].(data := arena[block].data[i := data[dataIndex]]);
        assert H() == h1.(mem := h1.mem[block := arena[block]]);
        KeptTransitive(h0, lists, h1, lists, H(), lists, r);
        assert data[start..dataIndex + 1] == data[start..dataIndex] + [data[dataIndex]];
        i := i + 1;
        dataIndex := dataIndex + 1;
      }
    }

    /** Copies data[start..] to byte `index` of the last block and on, chaining new blocks as they fill up. */
    method FillBlocks(r: nat, last: nat, index: nat, data: seq<bv8>, start: nat) returns (ok: bool)
      requires Consistent() && r < |lists.tag| && lists.tag[r] == InRx && r < arena.Length
      requires BuffersOf(lists, r) != [] && last == BuffersOf(lists, r)[|BuffersOf(lists, r)| - 1]
      requires index < BLOCK_SIZE && start <= |data|
      modifies arena, this`freeList, this`currentUsage, this`peakUsage, this`lists
      ensures Consistent() && peakUsage >= old(peakUsage) && r < |lists.tag| && lists.tag[r] == InRx
      ensures KeptExcept(old(H()), old(lists), H(), lists, r) && HeldSet(lists) == old(HeldSet(lists))
      ensures FieldsOf(arena[r]) == old(FieldsOf(arena[r]))
      ensures FreeCount(lists) + |BuffersOf(lists, r)| == old(FreeCount(lists) + |BuffersOf(lists, r)|)
      ensures var more := MoreBlocks(index, |data| - start);
              && (ok <==> more <= old(FreeCount(lists)))
              && (ok ==> |BuffersOf(lists, r)| == old(|BuffersOf(lists, r)|) + more)
      ensures var p := Place(old(|BuffersOf(lists, r)|), index);
              ok ==> Prefix(H(), lists, r, p + |data| - start) == old(Prefix(H(), lists, r, p)) + data[start..]
    {
      hide Inv, KeptExcept, Prefix, SameContents, FieldsOf, FreeCount, BuffersOf, HeldSet, List, Typed, Filling,
           MoreBlocks, Place;
      ghost var h0, l0 := H(), lists;
      StateBlock(h0, l0, r);
      FillingStarts(h0, l0, r, data, start, index);
      hide H, Consistent;
      var block, i: nat, dataIndex: nat := last, index, start;
      while dataIndex < |data|
        invariant Consistent() && peakUsage >= old(peakUsage) && r < |lists.tag| && lists.tag[r] == InRx
        invariant r < arena.Length
        invariant dataIndex <= |data| && (dataIndex < |data| ==> i < BLOCK_SIZE)
        invariant Filling(h0, l0, H(), lists, r, data, start, index, block, i, dataIndex)
        decreases |data| - dataIndex
      {
        ghost var h1, i1, d1 := H(), i, dataIndex;
        FillingBlock(h0, l0, h1, lists, r, data, start, index, block, i, dataIndex);
        i, dataIndex := FillBlock(r, block, i, data, dataIndex);
        FillingMore(h0, l0, h1, lists, H(), r, data, start, index, block, i1, d1, i, dataIndex);
        if dataIndex < |data| {
          ghost var h2, l2 := H(), lists;
          var next := CreateBufferBlock(r, block);
          if next == NULL {
            FillingFails(h0, l0, h2, l2, H(), lists, r, data, start, index, block, dataIndex);
            return false;
          }
          FillingNext(h0, l0, h2, l2, H(), lists, r, data, start, index, block, dataIndex, next);
          block, i := next, 0;
        }
      }
      FillingDone(h0, l0, H(), lists, r, data, start, index, block, i);
      ok := true;
    }

    /** Walks to the last buffer block; the count is an 8-bit number. */
    method LastBlock(r: nat) returns (block: nat, count: nat)
      requires Consistent() && r < |lists.tag| && lists.tag[r] == InRx && BuffersOf(lists, r) != []
      ensures block == BuffersOf(lists, r)[|BuffersOf(lists, r)| - 1] && count == |BuffersOf(lists, r)| % 0x100
    {
      hide Inv, Typed;
      StateBlock(H(), lists, r);
      Elements(H(), lists, InBuffers(r));
      ghost var s, j := BuffersOf(lists, r), 0;
      block, count := arena[r].buffers, 1;
      LastElement(H(), lists, InBuffers(r), 0);
      while arena[block].next != NULL
        invariant j < |s| && block == s[j] && block < arena.Length && count == (j + 1) % 0x100
        invariant arena[block].next == NULL <==> j == |s| - 1
        decreases |s| - j
      {
        NextElement(H(), lists, InBuffers(r), j);
        CountsOn(j + 1);
        count := (count + 1) % 0x100;
        block := arena[block].next;
        j := j + 1;
        LastElement(H(), lists, InBuffers(r), j);
      }
    }

    /** Stores fields of a state. */
    method StoreFields(r: nat, f: Fields)
      requires Consistent() && r < |lists.tag| && lists.tag[r] == InRx && r < arena.Length
      requires |f.head| == HEAD_SIZE && f.length < LENGTH_LIMIT && f.transferId < 32
      modifies arena
      ensures Consistent() && KeptExcept(old(H()), lists, H(), lists, r) && FieldsOf(arena[r]) == f
      ensures f.head == old(FieldsOf(arena[r])).head ==>
                forall n: nat :: Prefix(H(), lists, r, n) == old(Prefix(H(), lists, r, n))
    {
      hide Inv, KeptExcept, Prefix;
      StateBlock(H(), lists, r);
      ghost var h0 := H();
      WriteFields(H(), lists, r, f);
      arena[r] := arena[r].(fields := f);
      assert H() == h0.(mem := h0.mem[r := arena[r]]);
      if f.head == FieldsOf(h0.mem[r]).head {
        SamePrefix(h0, lists, H(), r);
      }
    }

    /** Adds to the length counter, which has 10 bits. */
    method AddLength(r: nat, count: nat)
      requires Consistent() && r < |lists.tag| && lists.tag[r] == InRx && r < arena.Length
      modifies arena
      ensures Consistent() && KeptExcept(old(H()), lists, H(), lists, r)
      ensures FieldsOf(arena[r]) ==
              old(FieldsOf(arena[r])).(length := (old(FieldsOf(arena[r])).length + count) % LENGTH_LIMIT)
      ensures forall n: nat :: Prefix(H(), lists, r, n) == old(Prefix(H(), lists, r, n))
    {
      hide Inv, KeptExcept, Prefix;
      StateBlock(H(), lists, r);
      var f := arena[r].fields;
      StoreFields(r, f.(length := (f.length + count) % LENGTH_LIMIT));
    }

    /** Finds the block the next `count` bytes go to, chaining a new one if there is none or the last one is full. */
    method StartBlock(r: nat, n: nat, count: nat) returns (block: Link, index: nat)
      requires Consistent() && r < |lists.tag| && lists.tag[r] == InRx && r < arena.Length && count < 8
      requires n == FieldsOf(arena[r]).length && !(n < HEAD_SIZE && n + count <= HEAD_SIZE)
      modifies arena, this`freeList, this`currentUsage, this`peakUsage, this`lists
      ensures Consistent() && peakUsage >= old(peakUsage) && r < |lists.tag| && lists.tag[r] == InRx
      ensures KeptExcept(old(H()), old(lists), H(), lists, r) && HeldSet(lists) == old(HeldSet(lists))
      ensures FieldsOf(arena[r]) == old(FieldsOf(arena[r]))
      ensures FreeCount(lists) + |BuffersOf(lists, r)| == old(FreeCount(lists) + |BuffersOf(lists, r)|)
      ensures block != NULL ==> 0 <= block && BuffersOf(lists, r) != [] && index < BLOCK_SIZE
                                && block == BuffersOf(lists, r)[|BuffersOf(lists, r)| - 1]
      ensures BlocksOk(n, old(|BuffersOf(lists, r)|)) ==>
                if block == NULL then BlocksAfter(n, count) > old(FreeCount(lists) + |BuffersOf(lists, r)|)
                else var p := Place(|BuffersOf(lists, r)|, index);
                     p == Max(n, HEAD_SIZE) && Prefix(H(), lists, r, p) == old(Prefix(H(), lists, r, p))
    {
      hide Inv, KeptExcept, Prefix, FieldsOf, HeldSet, Typed, StartIndex, NeededBlocks, BlocksAfter, BlocksFor,
           BlocksOk, Max, List, FreeCount;
      ghost var h0, l0, held := H(), lists, |BuffersOf(lists, r)|;
      ghost var good := BlocksOk(n, held);
      StateBlock(h0, l0, r);
      LengthOf(h0, l0, r);
      KeptReflexive(h0, l0, r);
      block, index := NULL, StartIndex(n);
      ghost var full := false;
      if good && (n < HEAD_SIZE || held == 0) {
        NoBlocksYet(n, held);
      }
      if arena[r].buffers == NULL {
        full := true;
        block := CreateBufferBlock(r, NULL);
        index := 0;
      } else {
        var last, blocks := LastBlock(r);
        block := last;
        if good {
          WritePosition(n, held, count);
        }
        if NeededBlocks(n, count) > blocks && index == 0 {
          full := true;
          block := CreateBufferBlock(r, last);
        }
      }
      if good && full {
        OneBlockMore(n, count, held);
      }
    }

    /** Appends data[done..] behind a full head. */
    method PushToBlocks(r: nat, data: seq<bv8>, done: nat) returns (ok: bool)
      requires Consistent() && r < |lists.tag| && lists.tag[r] == InRx && r < arena.Length && |data| < 8
      requires done <= |data|
      requires var n := FieldsOf(arena[r]).length;
               done == (if n < HEAD_SIZE then HEAD_SIZE - n else 0) && (n < HEAD_SIZE ==> done < |data|)
      modifies arena, this`freeList, this`currentUsage, this`peakUsage, this`lists
      ensures Consistent() && peakUsage >= old(peakUsage) && r < |lists.tag| && lists.tag[r] == InRx
      ensures KeptExcept(old(H()), old(lists), H(), lists, r) && HeldSet(lists) == old(HeldSet(lists))
      ensures FreeCount(lists) + |BuffersOf(lists, r)| == old(FreeCount(lists) + |BuffersOf(lists, r)|)
      ensures var f := old(FieldsOf(arena[r]));
              FieldsOf(arena[r]) == f.(length := if ok then (f.length + |data|) % LENGTH_LIMIT else f.length)
      ensures var n := old(FieldsOf(arena[r])).length; var held := old(|BuffersOf(lists, r)|);
              BlocksOk(n, held) ==>
                && (ok <==> BlocksAfter(n, |data|) <= held + old(FreeCount(lists)))
                && (ok ==> |BuffersOf(lists, r)| == BlocksAfter(n, |data|)
                           && Prefix(H(), lists, r, n + |data|) == old(Prefix(H(), lists, r, n + done)) + data[done..])
    {
      hide Inv, KeptExcept, Prefix, SameContents, FieldsOf, FreeCount, HeldSet, List, Typed, BlocksFor, BlocksOk,
           BuffersOf, BlocksAfter, MoreBlocks, Place, Max;
      ghost var h0, l0, held := H(), lists, |BuffersOf(lists, r)|;
      ghost var n := FieldsOf(arena[r]).length;
      LengthOf(h0, l0, r);
      var length := arena[r].fields.length;
      hide H, Consistent;
      var block, index := StartBlock(r, length, |data|);
      if block == NULL {
        return false;
      }
      ghost var h1, l1 := H(), lists;
      ok := FillBlocks(r, block, index, data, done);
      ghost var h2, l2 := H(), lists;
      KeptTransitive(h0, l0, h1, l1, h2, l2, r);
      if BlocksOk(n, held) {
        FilledBehindHead(h0, l0, h1, l1, h2, l2, r, n, data, done, index, ok);
      }
      if ok {
        AddLength(r, |data|);
        KeptTransitive(h0, l0, h2, l2, H(), lists, r);
      }
    }

    /** Fills up the head; done if that was all. */
    method PushToHead(r: nat, data: seq<bv8>) returns (dataIndex: nat, done: bool)
      requires Consistent() && r < |lists.tag| && lists.tag[r] == InRx && r < arena.Length
      modifies arena
      ensures Consistent() && KeptExcept(old(H()), lists, H(), lists, r)
      ensures var f := old(FieldsOf(arena[r])); var n := f.length;
              && FieldsOf(arena[r]) == f.(head := FieldsOf(arena[r]).head,
                                          length := if done then (n + |data|) % LENGTH_LIMIT else n)
              && done == (n < HEAD_SIZE && n + |data| <= HEAD_SIZE)
              && dataIndex <= |data|
                 && dataIndex == (if done then |data| else if n < HEAD_SIZE then HEAD_SIZE - n else 0)
              && Prefix(H(), lists, r, n + dataIndex) == old(Prefix(H(), lists, r, n)) + data[..dataIndex]
              && (done ==> data[..dataIndex] == data && BlocksAfter(n, |data|) == 0)
              && (done && BlocksOk(n, |BuffersOf(lists, r)|) ==> BuffersOf(lists, r) == [])
    {
      hide Inv, KeptExcept, Prefix, FieldsOf, BlocksFor, BlocksOk, BuffersOf;
      ghost var h0 := H();
      Keys(h0, lists);
      LengthOf(h0, lists, r);
      KeptReflexive(h0, lists, r);
      var n := arena[r].fields.length;
      dataIndex, done := 0, false;
      assert Prefix(h0, lists, r, n + 0) == Prefix(h0, lists, r, n) + data[..0];
      if HEAD_SIZE - n > 0 {
        if BlocksOk(n, |BuffersOf(lists, r)|) {
          NoBlocksYet(n, |BuffersOf(lists, r)|);
        }
        dataIndex := FillHead(r, data);
        if dataIndex >= |data| {
          ghost var h1 := H();
          AddLength(r, |data|);
          KeptTransitive(h0, lists, h1, lists, H(), lists, r);
          done := true;
        }
      }
    }

    /** Appends bytes to the state: the head first, then the buffer blocks. Fails if the pool is exhausted. */
    method BufferBlockPushBytes(r: nat, data: seq<bv8>) returns (ok: bool)
      requires Consistent() && r < |lists.tag| && lists.tag[r] == InRx && r < arena.Length && |data| < 8
      modifies arena, this`freeList, this`currentUsage, this`peakUsage, this`lists
      ensures Consistent() && peakUsage >= old(peakUsage) && r < |lists.tag| && lists.tag[r] == InRx
      ensures KeptExcept(old(H()), old(lists), H(), lists, r) && HeldSet(lists) == old(HeldSet(lists))
      ensures FreeCount(lists) + |BuffersOf(lists, r)| == old(FreeCount(lists) + |BuffersOf(lists, r)|)
      ensures var f := old(FieldsOf(arena[r]));
              FieldsOf(arena[r]) == f.(head := FieldsOf(arena[r]).head,
                                       length := if ok then (f.length + |data|) % LENGTH_LIMIT else f.length)
      ensures var n := old(FieldsOf(arena[r])).length; var held := old(|BuffersOf(lists, r)|);
              BlocksOk(n, held) ==>
                && (ok <==> BlocksAfter(n, |data|) <= held + old(FreeCount(lists)))
                && (ok ==> |BuffersOf(lists, r)| == BlocksAfter(n, |data|)
                           && Prefix(H(), lists, r, n + |data|) == old(Prefix(H(), lists, r, n)) + data)
    {
      hide Inv, KeptExcept, Prefix, FieldsOf, FreeCount, HeldSet, List, Typed, BlocksAfter, BlocksFor, BlocksOk,
           BuffersOf;
      ghost var h0, l0 := H(), lists;
      LengthOf(h0, l0, r);
      var n := arena[r].fields.length;
      hide H, Consistent;
      var dataIndex, done := PushToHead(r, data);
      if done {
        return true;
      }
      ghost var h1 := H();
      ok := PushToBlocks(r, data, dataIndex);
      KeptTransitive(h0, l0, h1, l0, H(), lists, r);
      PiecesJoin(data, dataIndex);
    }

    // -------------------------------------------------------------------------------------------
    // Delivery

    /** Frees the blocks lent to the application and clears the transfer's pointers. */
    method ReleaseRxTransferPayload(t: RxTransfer, ghost r: nat)
      requires Consistent() && lent == t.middle && r < |lists.tag| && lists.tag[r] == InRx
      modifies t, arena, this`freeList, this`currentUsage, this`lists, this`lent
      ensures Consistent() && lent == t.middle == NULL && r < |lists.tag| && lists.tag[r] == InRx
      ensures List(lists, InTransfer) == [] && FreeCount(lists) == old(FreeCount(lists) + |List(lists, InTransfer)|)
      ensures KeptRest(old(H()), old(lists), H(), lists, r) && HeldSet(lists) == old(HeldSet(lists))
      ensures BuffersOf(lists, r) == old(BuffersOf(lists, r)) && r < arena.Length && arena[r] == old(arena[..])[r]
      ensures TxOf(H(), lists) == old(TxOf(H(), lists))
    {
      hide Inv, KeptRest, KeptExcept, Without, With, HeldSet, BuffersOf, FreeCount, TxOf;
      ghost var h0, l0 := H(), lists;
      Keys(h0, l0);
      RestReflexive(h0, l0, r);
      Elements(H(), lists, InTransfer);
      while t.middle != NULL
        invariant Consistent() && lent == t.middle && r < |lists.tag| && lists.tag[r] == InRx
        invariant |lists.tag| == arena.Length && t.middle == At(List(lists, InTransfer), 0)
        invariant FreeCount(lists) + |List(lists, InTransfer)| == FreeCount(l0) + |List(l0, InTransfer)|
        invariant KeptRest(h0, l0, H(), lists, r) && HeldSet(lists) == HeldSet(l0)
        invariant BuffersOf(lists, r) == BuffersOf(l0, r) && arena[r] == h0.mem[r]
        invariant List(lists, InTx) == List(l0, InTx)
        decreases |List(lists, InTransfer)|
      {
        DropLent(H(), lists, r);
        ghost var h1, l1 := H(), lists;
        var b := t.middle;
        t.middle := arena[b].next;
        lent := t.middle;
        lists := Without(lists, InTransfer, 0);
        RestTransitive(h0, l0, h1, l1, H(), lists, r);
        ghost var h2, l2 := H(), lists;
        FreeBlock(b, r);
        HeldAfterTwoMoves(l1.tag, lists.tag, b);
        KeptIsRest(h2, l2, H(), lists, r);
        RestTransitive(h0, l0, h2, l2, H(), lists, r);
        Keys(H(), lists);
        Elements(H(), lists, InTransfer);
      }
      KeptTx(h0, l0, H(), lists, r);
      t.head, t.tail, t.length := [], None, 0;
    }

    /** SendAll, seen from a reception state. */
    method Reply(replies: seq<Outgoing>, ghost r: nat)
      requires Consistent() && r < |lists.tag| && lists.tag[r] == InRx && AllProper(replies)
      modifies arena, this`freeList, this`txQueue, this`currentUsage, this`peakUsage, this`lists
      ensures Consistent() && peakUsage >= old(peakUsage) && r < |lists.tag| && lists.tag[r] == InRx
      ensures FreeCount(lists) + |TxOf(H(), lists)| == old(FreeCount(lists) + |TxOf(H(), lists)|)
      ensures TxOf(H(), lists) == QueueAfterCalls(nodeId, old(TxOf(H(), lists)), old(FreeCount(lists)), replies)
      ensures KeptRest(old(H()), old(lists), H(), lists, r) && HeldSet(lists) == old(HeldSet(lists))
      ensures List(lists, InTransfer) == old(List(lists, InTransfer)) && BuffersOf(lists, r) == old(BuffersOf(lists, r))
      ensures r < arena.Length && FieldsOf(arena[r]) == FieldsOf(old(arena[..])[r])
    {
      hide Inv, KeptRest, HeldSet, BuffersOf, FreeCount, TxOf, RxOf, Aside, Valid, FieldsOf, QueueAfterCalls;
      Keys(H(), lists);
      ghost var h, l, n := H(), lists, Abs();
      CalledQueue(n, replies);
      CalledMoves(n, replies);
      SendAll(replies);
      AsideIsRest(h, l, H(), lists, r);
    }

    /** The application's callback: it looks at the payload, may release it, and may answer. Its calls find free what
        the transfer does not hold. */
    method OnReception(t: RxTransfer, releases: bool, replies: seq<Outgoing>, ghost r: nat)
      requires Consistent() && lent == t.middle && r < |lists.tag| && lists.tag[r] == InRx && AllProper(replies)
      modifies t, arena, this`freeList, this`txQueue, this`currentUsage, this`peakUsage, this`lists, this`lent,
               this`log, this`readable
      ensures Consistent() && peakUsage >= old(peakUsage)
      ensures lent == t.middle && r < |lists.tag| && lists.tag[r] == InRx
      ensures t.middle == NULL || t.middle == old(t.middle)
      ensures log ==
              old(log + [Transfer(t.timestamp, Gathered(arena[..], t.head, List(lists, InTransfer), t.tail, t.length),
                                         t.header, t.transferId)])
      ensures readable == old(readable && WellScattered(t.head, |List(lists, InTransfer)|, t.tail, t.length))
      ensures FreeCount(lists) + |List(lists, InTransfer)| + |TxOf(H(), lists)|
           == old(FreeCount(lists) + |List(lists, InTransfer)| + |TxOf(H(), lists)|)
      ensures TxOf(H(), lists) ==
              QueueAfterCalls(nodeId, old(TxOf(H(), lists)),
                              old(FreeCount(lists) + if releases then |List(lists, InTransfer)| else 0), replies)
      ensures KeptRest(old(H()), old(lists), H(), lists, r) && HeldSet(lists) == old(HeldSet(lists))
      ensures BuffersOf(lists, r) == old(BuffersOf(lists, r))
      ensures r < arena.Length && FieldsOf(arena[r]) == FieldsOf(old(arena[..])[r])
    {
      hide Inv, KeptRest, KeptExcept, HeldSet, BuffersOf, FreeCount, Gathered, WellScattered, TxOf, FieldsOf,
           QueueAfterCalls;
      Keys(H(), lists);
      ghost var h0, l0 := H(), lists;
      RestReflexive(h0, l0, r);
      log := log + [Transfer(t.timestamp, Gathered(arena[..], t.head, List(lists, InTransfer), t.tail, t.length),
                             t.header, t.transferId)];
      readable := readable && WellScattered(t.head, |List(lists, InTransfer)|, t.tail, t.length);
      if releases {
        ReleaseRxTransferPayload(t, r);
      }
      ghost var h1, l1 := H(), lists;
      Reply(replies, r);
      RestTransitive(h0, l0, h1, l1, H(), lists, r);
    }

    /** Prepares the state for the next transfer; it does not give up the state. */
    method PrepareForNextTransfer(r: nat)
      requires Consistent() && r < |lists.tag| && lists.tag[r] == InRx && r < arena.Length
      modifies arena
      ensures Consistent() && KeptExcept(old(H()), lists, H(), lists, r)
      ensures StateAt(H(), lists, r).desc == old(StateAt(H(), lists, r)).desc
      ensures BuffersOf(lists, r) == [] ==> StateAt(H(), lists, r) == Prepared(old(StateAt(H(), lists, r)))
    {
      hide Inv, KeptExcept, Prefix;
      StateBlock(H(), lists, r);
      ghost var h0 := H();
      StateIs(h0, lists, r);
      var f := arena[r].fields;
      NextIdFits(f.transferId);
      StoreFields(r, f.(transferId := NextId(f.transferId), length := 0, toggle := false));
      StateIs(H(), lists, r);
      EmptyPrefix(H(), lists, r);
    }

    // -------------------------------------------------------------------------------------------
    // Reception

    /** Gives up whatever the state had received and adopts the frame's transfer ID. */
    method Restart(r: nat, tail: bv8)
      requires Consistent() && r < |lists.tag| && lists.tag[r] == InRx && r < arena.Length
      modifies arena, this`freeList, this`currentUsage, this`lists
      ensures Consistent() && r < |lists.tag| && lists.tag[r] == InRx
      ensures KeptExcept(old(H()), old(lists), H(), lists, r) && HeldSet(lists) == old(HeldSet(lists))
      ensures FreeCount(lists) + |BuffersOf(lists, r)| == old(FreeCount(lists) + |BuffersOf(lists, r)|)
      ensures BuffersOf(lists, r) == [] && StateAt(H(), lists, r) == Restarted(old(StateAt(H(), lists, r)), tail)
    {
      hide Inv, KeptExcept, Prefix, HeldSet, FreeCount;
      StateBlock(H(), lists, r);
      ghost var h0, l0 := H(), lists;
      StateIs(h0, l0, r);
      var f := arena[r].fields;
      TransferIdFits(tail);
      StoreFields(r, f.(transferId := TransferIdOf(tail), toggle := false));
      ghost var h1 := H();
      ReleaseStatePayload(r);
      KeptTransitive(h0, l0, h1, l0, H(), lists, r);
      Keys(H(), lists);
      StateIs(H(), lists, r);
      EmptyPrefix(H(), lists, r);
    }

    /** A single-frame transfer. */
    method ApplySingle(r: nat, f: Frame, ts: nat, releases: bool, replies: seq<Outgoing>)
      requires Consistent() && r < |lists.tag| && lists.tag[r] == InRx && r < arena.Length
      requires List(lists, InTransfer) == [] && AllProper(replies) && f.data != [] && IsStart(Tail(f)) && IsEnd(Tail(f))
      modifies arena, this`freeList, this`txQueue, this`currentUsage, this`peakUsage, this`lists, this`lent, this`log,
               this`readable
      ensures Consistent() && peakUsage >= old(peakUsage)
      ensures r < |lists.tag| && lists.tag[r] == InRx && List(lists, InTransfer) == []
      ensures KeptRest(old(H()), old(lists), H(), lists, r) && HeldSet(lists) == old(HeldSet(lists))
      ensures StateAt(H(), lists, r).desc == old(StateAt(H(), lists, r)).desc
      ensures OnlyAnswered(nodeId, replies, old(TxOf(H(), lists)), old(log), TxOf(H(), lists), log)
      ensures FreeCount(lists) + |BuffersOf(lists, r)| + |TxOf(H(), lists)|
           == old(FreeCount(lists) + |BuffersOf(lists, r)| + |TxOf(H(), lists)|)
      ensures !ApplyTrips(old(StateAt(H(), lists, r)), f) ==>
                Achieved(Apply(old(StateAt(H(), lists, r)), f, ts, old(FreeCount(lists))),
                         old(StateAt(H(), lists, r)), 0, replies, old(Around()), StateAt(H(), lists, r), Around())
    {
      hide Inv, KeptExcept, KeptRest, Prefix, HeldSet, FreeCount, Gathered, WellScattered, BuffersOf, StateAt, IsStart,
           IsEnd, TxOf, QueueAfterCalls;
      StateBlock(H(), lists, r);
      ghost var h0, l0 := H(), lists;
      NoneLent(h0, l0);
      StateIs(h0, l0, r);
      SetTimestamp(r, ts);
      ghost var h1 := H();
      KeptIsRest(h0, l0, h1, l0, r);
      KeptQueue(h0, l0, h1, l0, r);
      StateBlock(h1, l0, r);
      StateIs(h1, l0, r);
      var t := new RxTransfer(ts, Body(f), NULL, None, |f.data| - 1, HeaderOf(f.id), TransferIdOf(Tail(f)));
      GatheredSingle(arena[..], Body(f));
      OnReception(t, releases, replies, r);
      RestTransitive(h0, l0, h1, l0, H(), lists, r);
      ghost var h2, l2 := H(), lists;
      StateIs(h2, l2, r);
      NoneLent(h2, l2);
      PrepareForNextTransfer(r);
      KeptIsRest(h2, l2, H(), lists, r);
      KeptQueue(h2, l2, H(), lists, r);
      RestTransitive(h0, l0, h2, l2, H(), lists, r);
    }

    /** Drops the transfer in progress. */
    method GiveUp(r: nat)
      requires Consistent() && r < |lists.tag| && lists.tag[r] == InRx && r < arena.Length
      modifies arena, this`freeList, this`currentUsage, this`lists
      ensures Consistent() && r < |lists.tag| && lists.tag[r] == InRx
      ensures KeptExcept(old(H()), old(lists), H(), lists, r) && HeldSet(lists) == old(HeldSet(lists))
      ensures FreeCount(lists) + |BuffersOf(lists, r)| == old(FreeCount(lists) + |BuffersOf(lists, r)|)
      ensures StateAt(H(), lists, r) == Prepared(old(StateAt(H(), lists, r)))
    {
      hide Inv, KeptExcept, Prefix, HeldSet, FreeCount;
      ghost var h0, l0 := H(), lists;
      StateBlock(h0, l0, r);
      StateIs(h0, l0, r);
      ReleaseStatePayload(r);
      ghost var h1, l1 := H(), lists;
      StateBlock(h1, l1, r);
      StateIs(h1, l1, r);
      EmptyPrefix(h1, l1, r);
      PrepareForNextTransfer(r);
      KeptTransitive(h0, l0, h1, l1, H(), lists, r);
    }

    /** BufferBlockPushBytes, in terms of the state's logical value. */
    method PushPayload(r: nat, data: seq<bv8>) returns (ok: bool)
      requires Consistent() && r < |lists.tag| && lists.tag[r] == InRx && r < arena.Length && |data| < 8
      modifies arena, this`freeList, this`currentUsage, this`peakUsage, this`lists
      ensures Consistent() && peakUsage >= old(peakUsage) && r < |lists.tag| && lists.tag[r] == InRx
      ensures KeptExcept(old(H()), old(lists), H(), lists, r) && HeldSet(lists) == old(HeldSet(lists))
      ensures FreeCount(lists) + |BuffersOf(lists, r)| == old(FreeCount(lists) + |BuffersOf(lists, r)|)
      ensures var s := old(StateAt(H(), lists, r)); var s' := StateAt(H(), lists, r);
              s' == s.(payload := s'.payload, blocks := s'.blocks)
      ensures var s := old(StateAt(H(), lists, r)); var s' := StateAt(H(), lists, r);
              Healthy(s) && |s.payload| + |data| < LENGTH_LIMIT ==>
                && (ok <==> BlocksAfter(|s.payload|, |data|) <= s.blocks + old(FreeCount(lists)))
                && (ok ==> s'.payload == s.payload + data && s'.blocks == BlocksAfter(|s.payload|, |data|))
    {
      hide Inv, KeptExcept, Prefix, HeldSet, FreeCount, BuffersOf, Healthy, BlocksOk, BlocksAfter, StateAt;
      StateBlock(H(), lists, r);
      ghost var s := StateAt(H(), lists, r);
      StateIs(H(), lists, r);
      if Healthy(s) {
        HealthyBlocks(s);
      }
      ok := BufferBlockPushBytes(r, data);
      StateBlock(H(), lists, r);
      StateIs(H(), lists, r);
    }

    /** Accounts for the bytes just stored. */
    method CountFrame(r: nat, f: Frame)
      requires Consistent() && r < |lists.tag| && lists.tag[r] == InRx && r < arena.Length
      requires f.data != [] && (IsStart(Tail(f)) ==> |f.data| > 3)
      modifies arena
      ensures Consistent() && KeptExcept(old(H()), lists, H(), lists, r)
      ensures var s := old(StateAt(H(), lists, r));
              StateAt(H(), lists, r) == s.(payloadCrc := if IsStart(Tail(f)) then FrameCrc(f) else s.payloadCrc,
                                           calculatedCrc := Crc.Add(s.calculatedCrc, Stored(f)), toggle := !s.toggle)
    {
      hide Inv, KeptExcept, Prefix, BuffersOf, Crc.Add, FrameCrc, Stored, StateAt, Tail, IsStart;
      StateBlock(H(), lists, r);
      StateIs(H(), lists, r);
      var g := arena[r].fields;
      var crc := Crc.CrcAdd(g.calculatedCrc, Stored(f));
      StoreFields(r, g.(payloadCrc := if IsStart(Tail(f)) then FrameCrc(f) else g.payloadCrc,
                        calculatedCrc := crc, toggle := !g.toggle));
      StateIs(H(), lists, r);
    }

    method SetTimestamp(r: nat, ts: nat)
      requires Consistent() && r < |lists.tag| && lists.tag[r] == InRx && r < arena.Length
      modifies arena
      ensures Consistent() && KeptExcept(old(H()), lists, H(), lists, r)
      ensures StateAt(H(), lists, r) == old(StateAt(H(), lists, r)).(timestamp := ts)
    {
      hide Inv, KeptExcept, Prefix, BuffersOf, StateAt;
      StateBlock(H(), lists, r);
      StateIs(H(), lists, r);
      StoreFields(r, arena[r].fields.(timestamp := ts));
      StateIs(H(), lists, r);
    }

    /** A first or middle frame of a multi-frame transfer, with the expected toggle bit and transfer ID. */
    method ApplyPayload(r: nat, f: Frame, ts: nat)
      requires Consistent() && r < |lists.tag| && lists.tag[r] == InRx && r < arena.Length
      requires f.data != [] && !IsEnd(Tail(f)) && (IsStart(Tail(f)) ==> |f.data| > 3)
      modifies arena, this`freeList, this`currentUsage, this`peakUsage, this`lists
      ensures Consistent() && peakUsage >= old(peakUsage) && r < |lists.tag| && lists.tag[r] == InRx
      ensures KeptExcept(old(H()), old(lists), H(), lists, r) && HeldSet(lists) == old(HeldSet(lists))
      ensures StateAt(H(), lists, r).desc == old(StateAt(H(), lists, r)).desc
      ensures FreeCount(lists) + |BuffersOf(lists, r)| == old(FreeCount(lists) + |BuffersOf(lists, r)|)
      ensures var s := old(StateAt(H(), lists, r));
              Healthy(s) && |s.payload| + |Stored(f)| < LENGTH_LIMIT ==>
                StateAt(H(), lists, r) ==
                Append(if IsStart(Tail(f)) then s.(timestamp := ts) else s, f, old(FreeCount(lists)))
    {
      hide Inv, KeptExcept, HeldSet, FreeCount, BuffersOf, Healthy, BlocksAfter, Crc.Add, FrameCrc, Stored, StateAt,
           Tail, IsStart, IsEnd;
      ghost var h0, l0 := H(), lists;
      Keys(h0, l0);
      hide H, Consistent;
      StoredSize(f);
      KeptReflexive(h0, l0, r);
      ghost var s := StateAt(h0, l0, r);
      if Healthy(s) {
        HealthyAt(s, ts);
      }
      if IsStart(Tail(f)) {
        SetTimestamp(r, ts);
      }
      ghost var h1 := H();
      var ok := PushPayload(r, Stored(f));
      KeptTransitive(h0, l0, h1, l0, H(), lists, r);
      ghost var h2, l2 := H(), lists;
      if ok {
        CountFrame(r, f);
      } else {
        GiveUp(r);
      }
      KeptTransitive(h0, l0, h2, l2, H(), lists, r);
    }

    /** Copies the beginning of the last frame to where the stored payload ends: into the head, or into the last
        buffer block. The rest stays in the frame. */
    method StoreTail(r: nat, body: seq<bv8>) returns (offset: nat)
      requires Consistent() && r < |lists.tag| && lists.tag[r] == InRx && r < arena.Length && |body| < 8
      modifies arena
      ensures Consistent() && KeptExcept(old(H()), lists, H(), lists, r) && offset <= |body|
      ensures |FieldsOf(arena[r]).head| == HEAD_SIZE
      ensures FieldsOf(arena[r]) == old(FieldsOf(arena[r])).(head := FieldsOf(arena[r]).head)
      ensures var n := old(FieldsOf(arena[r])).length; var blocks := |BuffersOf(lists, r)|;
              BlocksOk(n, blocks) && !(blocks > 0 && n == HEAD_SIZE + BLOCK_SIZE * blocks) ==>
                && Prefix(H(), lists, r, n + offset) == old(Prefix(H(), lists, r, n)) + body[..offset]
                && n + offset <= HEAD_SIZE + BLOCK_SIZE * blocks && (blocks > 0 ==> HEAD_SIZE <= n)
                && (offset == |body| || n + offset == HEAD_SIZE + BLOCK_SIZE * blocks)
    {
      hide Inv, KeptExcept, Prefix, BlocksOk, BlocksFor;
      StateBlock(H(), lists, r);
      KeptReflexive(H(), lists, r);
      var n := arena[r].fields.length;
      ghost var blocks := |BuffersOf(lists, r)|;
      if BlocksOk(n, blocks) {
        EndPosition(n, blocks);
      }
      offset := 0;
      assert Prefix(H(), lists, r, n + 0) == Prefix(H(), lists, r, n) + body[..0];
      if n < HEAD_SIZE {
        offset := FillHead(r, body);
      } else if arena[r].buffers != NULL {
        var block, firstByte := FindTail(r);
        var within := n - firstByte;
        if 0 <= within < BLOCK_SIZE && |body| > 0 {
          var i;
          i, offset := FillBlock(r, block, within, body, 0);
        }
      }
    }

    /** StoreTail, in terms of the payload that head, blocks and the rest of the frame make up. */
    method StoreEnd(r: nat, body: seq<bv8>) returns (offset: nat)
      requires Consistent() && r < |lists.tag| && lists.tag[r] == InRx && r < arena.Length && |body| < 8
      modifies arena
      ensures Consistent() && KeptExcept(old(H()), lists, H(), lists, r) && offset <= |body|
      ensures |FieldsOf(arena[r]).head| == HEAD_SIZE
      ensures FieldsOf(arena[r]) == old(FieldsOf(arena[r])).(head := FieldsOf(arena[r]).head)
      ensures var n := old(FieldsOf(arena[r])).length; var s := BuffersOf(lists, r);
              BlocksOk(n, |s|) && !(|s| > 0 && n == HEAD_SIZE + BLOCK_SIZE * |s|) ==>
                var tail := if offset == |body| then None else Some(body[offset..]);
                && Gathered(arena[..], FieldsOf(arena[r]).head, s, tail, n + |body|) ==
                   old(Prefix(H(), lists, r, n)) + body
                && WellScattered(FieldsOf(arena[r]).head, |s|, tail, n + |body|)
    {
      hide Inv, KeptExcept, Prefix, BlocksOk, BlocksFor, Gathered, WellScattered, BuffersOf, FieldsOf;
      LengthOf(H(), lists, r);
      ghost var h0, s := H(), BuffersOf(lists, r);
      ghost var n := FieldsOf(arena[r]).length;
      offset := StoreTail(r, body);
      if BlocksOk(n, |s|) && !(|s| > 0 && n == HEAD_SIZE + BLOCK_SIZE * |s|) {
        PrefixIs(H(), lists, r, n + offset);
        GatheredPayload(arena[..], FieldsOf(arena[r]).head, s, body, offset, n);
        assert body == body[..offset] + body[offset..];
      }
    }

    /** The last buffer block, and the payload offset of its first byte. */
    method FindTail(r: nat) returns (block: nat, offset: nat)
      requires Consistent() && r < |lists.tag| && lists.tag[r] == InRx && BuffersOf(lists, r) != []
      ensures block == BuffersOf(lists, r)[|BuffersOf(lists, r)| - 1]
      ensures offset == HEAD_SIZE + BLOCK_SIZE * (|BuffersOf(lists, r)| - 1)
    {
      hide Inv;
      StateBlock(H(), lists, r);
      Elements(H(), lists, InBuffers(r));
      ghost var s, j := BuffersOf(lists, r), 0;
      block, offset := arena[r].buffers, HEAD_SIZE;
      LastElement(H(), lists, InBuffers(r), 0);
      while arena[block].next != NULL
        invariant j < |s| && block == s[j] && block < arena.Length && offset == HEAD_SIZE + BLOCK_SIZE * j
        invariant arena[block].next == NULL <==> j == |s| - 1
        decreases |s| - j
      {
        NextElement(H(), lists, InBuffers(r), j);
        offset := offset + BLOCK_SIZE;
        block := arena[block].next;
        j := j + 1;
        LastElement(H(), lists, InBuffers(r), j);
      }
    }

    /** Detaches the state's buffers: they now belong to the transfer. */
    method LendBuffers(r: nat)
      requires Consistent() && r < |lists.tag| && lists.tag[r] == InRx && r < arena.Length
      requires List(lists, InTransfer) == []
      modifies arena, this`lists, this`lent
      ensures Consistent() && r < |lists.tag| && lists.tag[r] == InRx
      ensures KeptRest(old(H()), old(lists), H(), lists, r) && HeldSet(lists) == old(HeldSet(lists))
      ensures TxOf(H(), lists) == old(TxOf(H(), lists))
      ensures BuffersOf(lists, r) == [] && List(lists, InTransfer) == old(BuffersOf(lists, r))
      ensures FreeCount(lists) == old(FreeCount(lists)) && FieldsOf(arena[r]) == old(FieldsOf(arena[r]))
      ensures old(arena[r].RxBlock?) && lent == old(arena[r].buffers) && arena[..] == old(arena[..])[r := arena[r]]
    {
      hide Inv, KeptRest, HeldSet, FreeCount, TxOf;
      ghost var l0 := lists;
      LendKept(H(), lists, r);
      ghost var h0 := H();
      lent := arena[r].buffers;
      arena[r] := arena[r].(buffers := NULL);
      assert H() == h0.(mem := h0.mem[r := h0.mem[r].(buffers := NULL)], lent := h0.mem[r].buffers);
      lists := Lent(lists, r);
      KeptTx(h0, l0, H(), lists, r);
    }

    /** Ends the payload with the last frame's bytes and hands its storage over to a transfer. */
    method TakeTransfer(r: nat, f: Frame, ts: nat) returns (t: RxTransfer)
      requires Consistent() && r < |lists.tag| && lists.tag[r] == InRx && r < arena.Length
      requires List(lists, InTransfer) == [] && f.data != []
      modifies arena, this`lists, this`lent
      ensures Consistent() && r < |lists.tag| && lists.tag[r] == InRx && fresh(t) && lent == t.middle
      ensures KeptRest(old(H()), old(lists), H(), lists, r) && HeldSet(lists) == old(HeldSet(lists))
      ensures FreeCount(lists) == old(FreeCount(lists)) && BuffersOf(lists, r) == []
      ensures TxOf(H(), lists) == old(TxOf(H(), lists))
      ensures |List(lists, InTransfer)| == old(|BuffersOf(lists, r)|)
      ensures |FieldsOf(arena[r]).head| == HEAD_SIZE
      ensures FieldsOf(arena[r]) == old(FieldsOf(arena[r])).(head := FieldsOf(arena[r]).head)
      ensures t.timestamp == ts && t.header == HeaderOf(f.id) && t.transferId == TransferIdOf(Tail(f))
      ensures var s := old(StateAt(H(), lists, r));
              Healthy(s) && !(s.blocks > 0 && |s.payload| == HEAD_SIZE + BLOCK_SIZE * s.blocks) ==>
                && Gathered(arena[..], t.head, List(lists, InTransfer), t.tail, t.length) == s.payload + Body(f)
                && WellScattered(t.head, |List(lists, InTransfer)|, t.tail, t.length)
    {
      hide Inv, KeptExcept, KeptRest, Prefix, HeldSet, FreeCount, Gathered, WellScattered, BuffersOf, StateAt, List,
           Healthy, BlocksOk, Tail, TxOf;
      ghost var h0, l0 := H(), lists;
      ghost var s := StateAt(h0, l0, r);
      StateBlock(h0, l0, r);
      StateIs(h0, l0, r);
      if Healthy(s) {
        HealthyBlocks(s);
      }
      var body := Body(f);
      var offset := StoreEnd(r, body);
      ghost var h1 := H();
      KeptIsRest(h0, l0, h1, l0, r);
      KeptQueue(h0, l0, h1, l0, r);
      StateBlock(h1, l0, r);
      var g := arena[r].fields;
      var tail := if offset >= |body| then None else Some(body[offset..]);
      t := new RxTransfer(ts, g.head, arena[r].buffers, tail, g.length + |body|, HeaderOf(f.id), TransferIdOf(Tail(f)));
      LendBuffers(r);
      RestTransitive(h0, l0, h1, l0, H(), lists, r);
      GatheredKept(h1, l0, arena[..], r, g.head, tail, g.length + |body|);
    }

    /** Releases the transfer's blocks if the application did not, and prepares the state for the next one. */
    method Dismiss(t: RxTransfer, r: nat)
      requires Consistent() && lent == t.middle && r < |lists.tag| && lists.tag[r] == InRx && r < arena.Length
      requires BuffersOf(lists, r) == []
      modifies t, arena, this`freeList, this`currentUsage, this`lists, this`lent
      ensures Consistent() && r < |lists.tag| && lists.tag[r] == InRx && List(lists, InTransfer) == []
      ensures FreeCount(lists) == old(FreeCount(lists) + |List(lists, InTransfer)|) && BuffersOf(lists, r) == []
      ensures KeptRest(old(H()), old(lists), H(), lists, r) && HeldSet(lists) == old(HeldSet(lists))
      ensures StateAt(H(), lists, r) == Prepared(old(StateAt(H(), lists, r)))
      ensures TxOf(H(), lists) == old(TxOf(H(), lists))
    {
      hide Inv, KeptExcept, KeptRest, Prefix, HeldSet, FreeCount, List, TxOf;
      ghost var h0, l0 := H(), lists;
      StateBlock(h0, l0, r);
      StateIs(h0, l0, r);
      ReleaseRxTransferPayload(t, r);
      ghost var h1, l1 := H(), lists;
      StateIs(h1, l1, r);
      PrepareForNextTransfer(r);
      KeptIsRest(h1, l1, H(), lists, r);
      KeptQueue(h1, l1, H(), lists, r);
      RestTransitive(h0, l0, h1, l1, H(), lists, r);
    }

    /** Completes the CRC of the transfer and compares it with the one received. */
    method CheckCrc(r: nat, body: seq<bv8>) returns (ok: bool)
      requires Consistent() && r < |lists.tag| && lists.tag[r] == InRx && r < arena.Length
      modifies arena
      ensures Consistent() && KeptExcept(old(H()), lists, H(), lists, r)
      ensures var crc := Crc.Add(old(FieldsOf(arena[r])).calculatedCrc, body);
              FieldsOf(arena[r]) == old(FieldsOf(arena[r])).(calculatedCrc := crc)
              && ok == (crc == FieldsOf(arena[r]).payloadCrc)
    {
      hide Inv, KeptExcept, Prefix, BuffersOf, Crc.Add, StateAt;
      StateBlock(H(), lists, r);
      var g := arena[r].fields;
      var crc := Crc.CrcAdd(g.calculatedCrc, body);
      StoreFields(r, g.(calculatedCrc := crc));
      ok := crc == g.payloadCrc;
    }

    /** Hands the transfer over if its CRC is right. The state then has no buffers any more. */
    method HandOver(r: nat, f: Frame, ts: nat, releases: bool, replies: seq<Outgoing>) returns (t: RxTransfer)
      requires Consistent() && r < |lists.tag| && lists.tag[r] == InRx && r < arena.Length
      requires List(lists, InTransfer) == [] && f.data != [] && AllProper(replies)
      modifies arena, this`freeList, this`txQueue, this`currentUsage, this`peakUsage, this`lists, this`lent, this`log,
               this`readable
      ensures Consistent() && peakUsage >= old(peakUsage)
      ensures r < |lists.tag| && lists.tag[r] == InRx && r < arena.Length && fresh(t)
      ensures lent == t.middle
      ensures KeptRest(old(H()), old(lists), H(), lists, r) && HeldSet(lists) == old(HeldSet(lists))
      ensures BuffersOf(lists, r) == []
      ensures log == old(log) || (|log| == |old(log)| + 1 && log[..|old(log)|] == old(log))
      ensures FreeCount(lists) + |List(lists, InTransfer)| + |TxOf(H(), lists)|
           == old(FreeCount(lists) + |BuffersOf(lists, r)| + |TxOf(H(), lists)|)
      ensures TxOf(H(), lists) ==
              if |log| == |old(log)| then old(TxOf(H(), lists))
              else QueueAfterCalls(nodeId, old(TxOf(H(), lists)),
                                   old(FreeCount(lists) + if releases then |BuffersOf(lists, r)| else 0), replies)
      ensures var s := old(StateAt(H(), lists, r));
              Prepared(StateAt(H(), lists, r)) == Prepared(s.(calculatedCrc := Crc.Add(s.calculatedCrc, Body(f))))
      ensures var s := old(StateAt(H(), lists, r));
              Healthy(s) && !(s.blocks > 0 && |s.payload| == HEAD_SIZE + BLOCK_SIZE * s.blocks) ==>
                log == old(log) + DeliveredBy(Finish(s, f, ts)) && (old(readable) ==> readable)
    {
      hide Inv, KeptExcept, KeptRest, Prefix, HeldSet, FreeCount, Gathered, WellScattered, BuffersOf, StateAt, List,
           Healthy, BlocksOk, Crc.Add, Tail, HeaderOf, TransferIdOf, Body, NextId, TxOf, QueueAfterCalls;
      ghost var h0, l0 := H(), lists;
      StateIs(h0, l0, r);
      t := TakeTransfer(r, f, ts);
      ghost var h1, l1 := H(), lists;
      StateIs(h1, l1, r);
      var ok := CheckCrc(r, Body(f));
      ghost var h2 := H();
      KeptIsRest(h1, l1, h2, l1, r);
      KeptQueue(h1, l1, h2, l1, r);
      RestTransitive(h0, l0, h1, l1, h2, l1, r);
      LentKept(h1, l1, h2, r, t.head, t.tail, t.length);
      StateIs(h2, l1, r);
      if ok {
        OnReception(t, releases, replies, r);
      } else {
        RestReflexive(h2, l1, r);
      }
      StateIs(H(), lists, r);
      RestTransitive(h0, l0, h2, l1, H(), lists, r);
    }

    /** The last frame of a multi-frame transfer, with the expected toggle bit and transfer ID. */
    method ApplyEnd(r: nat, f: Frame, ts: nat, releases: bool, replies: seq<Outgoing>)
      requires Consistent() && r < |lists.tag| && lists.tag[r] == InRx && r < arena.Length
      requires List(lists, InTransfer) == [] && f.data != [] && AllProper(replies)
      modifies arena, this`freeList, this`txQueue, this`currentUsage, this`peakUsage, this`lists, this`lent, this`log,
               this`readable
      ensures Consistent() && peakUsage >= old(peakUsage)
      ensures r < |lists.tag| && lists.tag[r] == InRx && List(lists, InTransfer) == []
      ensures KeptRest(old(H()), old(lists), H(), lists, r) && HeldSet(lists) == old(HeldSet(lists))
      ensures StateAt(H(), lists, r).desc == old(StateAt(H(), lists, r)).desc
      ensures OnlyAnswered(nodeId, replies, old(TxOf(H(), lists)), old(log), TxOf(H(), lists), log)
      ensures FreeCount(lists) + |BuffersOf(lists, r)| + |TxOf(H(), lists)|
           == old(FreeCount(lists) + |BuffersOf(lists, r)| + |TxOf(H(), lists)|)
      ensures var s := old(StateAt(H(), lists, r));
              Healthy(s) && !(s.blocks > 0 && |s.payload| == HEAD_SIZE + BLOCK_SIZE * s.blocks) ==>
                Achieved(Finish(s, f, ts), s, if releases then 0 else s.blocks, replies, old(Around()),
                         StateAt(H(), lists, r), Around())
    {
      hide Inv, KeptRest, HeldSet, FreeCount, BuffersOf, StateAt, List, Healthy, Crc.Add, Tail, HeaderOf, TransferIdOf,
           Body, NextId, TxOf, QueueAfterCalls;
      ghost var h0, l0 := H(), lists;
      StateIs(h0, l0, r);
      var t := HandOver(r, f, ts, releases, replies);
      ghost var h3, l3 := H(), lists;
      Dismiss(t, r);
      RestTransitive(h0, l0, h3, l3, H(), lists, r);
    }

    /** The frame's effect on a state that was restarted if need be. */
    method ApplyFrame(r: nat, f: Frame, ts: nat, releases: bool, replies: seq<Outgoing>)
      requires Consistent() && r < |lists.tag| && lists.tag[r] == InRx && r < arena.Length
      requires List(lists, InTransfer) == [] && f.data != [] && AllProper(replies)
      modifies arena, this`freeList, this`txQueue, this`currentUsage, this`peakUsage, this`lists, this`lent, this`log,
               this`readable
      ensures Consistent() && peakUsage >= old(peakUsage)
      ensures r < |lists.tag| && lists.tag[r] == InRx && List(lists, InTransfer) == []
      ensures KeptRest(old(H()), old(lists), H(), lists, r) && HeldSet(lists) == old(HeldSet(lists))
      ensures StateAt(H(), lists, r).desc == old(StateAt(H(), lists, r)).desc
      ensures OnlyAnswered(nodeId, replies, old(TxOf(H(), lists)), old(log), TxOf(H(), lists), log)
      ensures FreeCount(lists) + |BuffersOf(lists, r)| + |TxOf(H(), lists)|
           == old(FreeCount(lists) + |BuffersOf(lists, r)| + |TxOf(H(), lists)|)
      ensures Healthy(old(StateAt(H(), lists, r))) && !ApplyTrips(old(StateAt(H(), lists, r)), f) ==>
                Achieved(Apply(old(StateAt(H(), lists, r)), f, ts, old(FreeCount(lists))),
                         old(StateAt(H(), lists, r)), LentWhile(old(StateAt(H(), lists, r)), f, releases), replies,
                         old(Around()), StateAt(H(), lists, r), Around())
    {
      hide Inv, KeptExcept, KeptRest, Prefix, HeldSet, FreeCount, BuffersOf, StateAt, List, Healthy, Append, Finish,
           IsStart, IsEnd, Toggle, TransferIdOf, Tail, Body, Stored, TxOf,
           QueueAfterCalls, OnlyAnswered;
      ghost var h0, l0 := H(), lists;
      StateBlock(h0, l0, r);
      StateIs(h0, l0, r);
      RestReflexive(h0, l0, r);
      NothingAnswered(nodeId, replies, TxOf(h0, l0), log);
      var tail := Tail(f);
      if IsStart(tail) && IsEnd(tail) {
        ApplySingle(r, f, ts, releases, replies);
      } else if Toggle(tail) != arena[r].fields.toggle || TransferIdOf(tail) != arena[r].fields.transferId {
        return;
      } else if !IsEnd(tail) {
        if IsStart(tail) && |f.data| <= 3 {
          return;
        }
        ApplyPayload(r, f, ts);
        KeptIsRest(h0, l0, H(), lists, r);
        KeptQueue(h0, l0, H(), lists, r);
        StateIs(H(), lists, r);
      } else {
        ApplyEnd(r, f, ts, releases, replies);
      }
    }

    /** Restarts the state if it is new, has timed out, or sees the start of a transfer other than the next two. */
    method Resolve(r: nat, tail: bv8, ts: nat) returns (needRestart: bool)
      requires Consistent() && r < |lists.tag| && lists.tag[r] == InRx && r < arena.Length
      modifies arena, this`freeList, this`currentUsage, this`lists
      ensures Consistent() && r < |lists.tag| && lists.tag[r] == InRx
      ensures KeptExcept(old(H()), old(lists), H(), lists, r) && HeldSet(lists) == old(HeldSet(lists))
      ensures FreeCount(lists) + |BuffersOf(lists, r)| == old(FreeCount(lists) + |BuffersOf(lists, r)|)
      ensures needRestart == NeedRestart(old(StateAt(H(), lists, r)), tail, ts)
      ensures StateAt(H(), lists, r) == Current(old(StateAt(H(), lists, r)), tail, ts)
    {
      hide Inv, KeptExcept, Prefix, HeldSet, FreeCount, BuffersOf, StateAt, IsStart, TransferIdOf, Elapsed,
           ForwardDistance;
      StateBlock(H(), lists, r);
      StateIs(H(), lists, r);
      KeptReflexive(H(), lists, r);
      var f := arena[r].fields;
      var notInitialized := f.timestamp == 0;
      var timedOut := Elapsed(ts, f.timestamp) > TRANSFER_TIMEOUT;
      var notPrevious := ForwardDistance(f.transferId, TransferIdOf(tail)) > 1;
      needRestart := notInitialized || timedOut || (IsStart(tail) && notPrevious);
      if needRestart {
        Restart(r, tail);
      }
    }

    /** The first frame was missed: the state waits for the next transfer. */
    method ExpectNext(r: nat)
      requires Consistent() && r < |lists.tag| && lists.tag[r] == InRx && r < arena.Length
      modifies arena
      ensures Consistent() && KeptExcept(old(H()), lists, H(), lists, r)
      ensures var s := old(StateAt(H(), lists, r));
              StateAt(H(), lists, r) == s.(transferId := NextId(s.transferId))
    {
      hide Inv, KeptExcept, Prefix, BuffersOf, StateAt, NextId;
      StateBlock(H(), lists, r);
      StateIs(H(), lists, r);
      var k := arena[r].fields;
      NextIdFits(k.transferId);
      StoreFields(r, k.(transferId := NextId(k.transferId)));
      StateIs(H(), lists, r);
    }

    /** The frame's effect on the state it belongs to. */
    method ProcessFrame(r: nat, f: Frame, ts: nat, releases: bool, replies: seq<Outgoing>)
      requires Consistent() && r < |lists.tag| && lists.tag[r] == InRx && r < arena.Length
      requires List(lists, InTransfer) == [] && f.data != [] && AllProper(replies)
      modifies arena, this`freeList, this`txQueue, this`currentUsage, this`peakUsage, this`lists, this`lent, this`log,
               this`readable
      ensures Consistent() && peakUsage >= old(peakUsage)
      ensures r < |lists.tag| && lists.tag[r] == InRx && List(lists, InTransfer) == []
      ensures KeptRest(old(H()), old(lists), H(), lists, r) && HeldSet(lists) == old(HeldSet(lists))
      ensures StateAt(H(), lists, r).desc == old(StateAt(H(), lists, r)).desc
      ensures OnlyAnswered(nodeId, replies, old(TxOf(H(), lists)), old(log), TxOf(H(), lists), log)
      ensures FreeCount(lists) + |BuffersOf(lists, r)| + |TxOf(H(), lists)|
           == old(FreeCount(lists) + |BuffersOf(lists, r)| + |TxOf(H(), lists)|)
      ensures Healthy(old(StateAt(H(), lists, r))) && !Trips(old(StateAt(H(), lists, r)), f, ts) ==>
                Achieved(Advance(old(StateAt(H(), lists, r)), f, ts, old(FreeCount(lists))),
                         old(StateAt(H(), lists, r)), LentWhile(old(StateAt(H(), lists, r)), f, releases), replies,
                         old(Around()), StateAt(H(), lists, r), Around())
    {
      hide Inv, KeptExcept, KeptRest, Prefix, HeldSet, FreeCount, BuffersOf, StateAt, List, Healthy, Apply, ApplyTrips,
           IsStart, TransferIdOf, Tail, NextId, Current, NeedRestart, TxOf, QueueAfterCalls,
           OnlyAnswered, Achieved;
      ghost var h0, l0 := H(), lists;
      ghost var s, a := StateAt(h0, l0, r), Around();
      NothingAnswered(nodeId, replies, TxOf(h0, l0), log);
      if Healthy(s) {
        HealthyCurrent(s, Tail(f), ts);
      }
      var restarted := Resolve(r, Tail(f), ts);
      ghost var h1, l1 := H(), lists;
      KeptIsRest(h0, l0, h1, l1, r);
      KeptQueue(h0, l0, h1, l1, r);
      BlocksAre(h0, l0, r);
      BlocksAre(h1, l1, r);
      if restarted && !IsStart(Tail(f)) {
        ExpectNext(r);
        KeptIsRest(h1, l1, H(), lists, r);
        KeptQueue(h1, l1, H(), lists, r);
        AchievedQuietly(s, LentWhile(s, f, releases), replies, a, StateAt(H(), lists, r), Around());
      } else {
        ghost var c, a1 := StateAt(h1, l1, r), Around();
        CurrentLends(s, f, ts, releases);
        ApplyFrame(r, f, ts, releases, replies);
        if Healthy(s) && !Trips(s, f, ts) {
          AchievedAfter(Advance(s, f, ts, a.free), s, c, LentWhile(s, f, releases), replies, a, a1,
                        StateAt(H(), lists, r), Around());
        }
      }
      RestTransitive(h0, l0, h1, l1, H(), lists, r);
    }

    /** Walks the list of states for a descriptor. */
    method FindRxState(desc: nat) returns (state: Link)
      requires Consistent()
      ensures var i := Find(RxOf(H(), lists), desc);
              state == if i < |List(lists, InRx)| then List(lists, InRx)[i] else NULL
    {
      hide Inv, StateAt;
      Keys(H(), lists);
      Elements(H(), lists, InRx);
      ghost var s, rx, j := List(lists, InRx), RxOf(H(), lists), 0;
      state := rxStates;
      while state != NULL
        invariant 0 <= j <= |s| && state == At(s, j)
        invariant forall k | 0 <= k < j :: rx[k].desc != desc
        decreases |s| - j
      {
        StateIs(H(), lists, state);
        if FieldsOf(arena[state]).desc == desc {
          FindIs(rx, desc, j);
          return;
        }
        NextElement(H(), lists, InRx, j);
        state := arena[state].next;
        j := j + 1;
      }
      FindIs(rx, desc, j);
    }

    /** Puts a new state in front of the list. */
    method PrependRxState(desc: nat) returns (b: Link)
      requires Consistent()
      modifies arena, this`freeList, this`rxStates, this`currentUsage, this`peakUsage, this`lists
      ensures Consistent() && peakUsage >= old(peakUsage)
      ensures b == NULL <==> old(FreeCount(lists)) == 0
      ensures b == NULL ==> H() == old(H()) && lists == old(lists)
      ensures b != NULL ==>
                && 0 <= b < |lists.tag| && lists.tag[b] == InRx && List(lists, InRx) == [b] + old(List(lists, InRx))
                && RxOf(H(), lists) == [NewState(desc)] + old(RxOf(H(), lists))
                && TxOf(H(), lists) == old(TxOf(H(), lists))
                && FreeCount(lists) == old(FreeCount(lists)) - 1 && HeldSet(lists) == old(HeldSet(lists))
                && List(lists, InTransfer) == old(List(lists, InTransfer))
    {
      hide Inv, KeptExcept, Without, With, StateAt, RxOf, TxOf, HeldSet;
      ghost var h0, l0 := H(), lists;
      Keys(h0, l0);
      b := AllocateBlock(0);
      if b == NULL {
        return;
      }
      ghost var h1, l1 := H(), lists;
      TakeFreeContents(h0, l0, h1);
      Keys(h1, l1);
      var head: seq<bv8> := *;
      if |head| != HEAD_SIZE {
        head := seq(HEAD_SIZE, _ => 0);
      }
      var f := Fields(0, desc, 0, 0, 0, 0, false, head);
      AddState(h1, l1, b, f);
      arena[b] := RxBlock(rxStates, NULL, f);
      rxStates := b;
      assert H() == h1.(mem := h1.mem[b := RxBlock(h1.rx, NULL, f)], rx := b);
      lists := With(lists, InRx, 0, b);
      StateIs(H(), lists, b);
      EmptyPrefix(H(), lists, b);
      HeldAfterMove(l0.tag, lists.tag, b, InRx);
    }

    /** The state of a descriptor, created if need be. */
    method TraverseRxStates(desc: nat) returns (r: Link)
      requires Valid()
      modifies arena, this`freeList, this`rxStates, this`currentUsage, this`peakUsage, this`lists
      ensures Valid() && peakUsage >= old(peakUsage)
      ensures r == NULL <==> old(Find(RxOf(H(), lists), desc) == |RxOf(H(), lists)| && FreeCount(lists) == 0)
      ensures r == NULL ==> Abs() == old(Abs())
      ensures r != NULL ==>
                var rx := old(RxOf(H(), lists)); var i := Find(rx, desc);
                if i < |rx| then Abs() == old(Abs()) && i < |List(lists, InRx)| && r == List(lists, InRx)[i]
                else 0 < |List(lists, InRx)| && r == List(lists, InRx)[0]
                     && Abs() == old(Abs()).(rx := [NewState(desc)] + rx, free := old(FreeCount(lists)) - 1)
    {
      hide Inv, StateAt, HeldSet, List, RxOf, TxOf, Unique;
      RxLength(H(), lists);
      ghost var rx := RxOf(H(), lists);
      r := FindRxState(desc);
      if r == NULL {
        FoundInList(H(), lists, Find(rx, desc));
        r := PrependRxState(desc);
        if r != NULL {
          UniquePrepend(rx, NewState(desc));
        }
      }
    }

    /** Restarts the CRC of a state. */
    method RestartCrc(r: nat, ghost i: nat, signature: bv64)
      requires Valid() && i < |List(lists, InRx)| && r == List(lists, InRx)[i]
      modifies arena
      ensures Valid() && i < |RxOf(H(), lists)| == |old(RxOf(H(), lists))|
      ensures Abs() == old(Abs()).(rx := old(RxOf(H(), lists))[i := old(RxOf(H(), lists))[i].(
                                           calculatedCrc := Crc.AddSignature(0xFFFF, signature))])
    {
      hide Inv, KeptExcept, KeptRest, StateAt, HeldSet, List, RxOf, TxOf, Unique, Prefix, Crc.AddSignature;
      ghost var h0 := H();
      RxLength(h0, lists);
      IsState(h0, lists, i);
      StateBlock(h0, lists, r);
      StateIs(h0, lists, r);
      var crc := Crc.CrcAddSignature(0xFFFF, signature);
      StoreFields(r, arena[r].fields.(calculatedCrc := crc));
      KeptIsRest(h0, lists, H(), lists, r);
      KeptQueue(h0, lists, H(), lists, r);
      KeptRx(h0, lists, H(), lists, i);
      StateIs(H(), lists, r);
      UniqueUpdate(RxOf(h0, lists), i, StateAt(H(), lists, r));
    }

    /** ProcessFrame, in terms of the instance. */
    method FeedState(r: nat, ghost i: nat, f: Frame, ts: nat, releases: bool, replies: seq<Outgoing>)
      requires Valid() && i < |List(lists, InRx)| && r == List(lists, InRx)[i] && f.data != [] && AllProper(replies)
      modifies arena, this`freeList, this`txQueue, this`currentUsage, this`peakUsage, this`lists, this`lent, this`log,
               this`readable
      ensures Valid() && peakUsage >= old(peakUsage) && i < old(|RxOf(H(), lists)|)
      ensures OnlyAnswered(nodeId, replies, old(TxOf(H(), lists)), old(log), TxOf(H(), lists), log)
      ensures |RxOf(H(), lists)| == |old(RxOf(H(), lists))|
      ensures var s := RxOf(H(), lists)[i];
              s.desc == old(RxOf(H(), lists))[i].desc && RxOf(H(), lists) == old(RxOf(H(), lists))[i := s]
      ensures Healthy(old(RxOf(H(), lists))[i]) && !Trips(old(RxOf(H(), lists))[i], f, ts) ==>
                (old(readable) ==> readable) && Abs() == FeedAnswered(old(Abs()), i, f, ts, releases, replies)
    {
      hide Inv, KeptRest, HeldSet, List, RxOf, TxOf, StateAt, Unique, AllHealthy, Healthy, Trips, Advance, FreeCount,
           BuffersOf, FeedAnswered, LentWhile, QueueAfterCalls, OnlyAnswered;
      ghost var h0, l0, n := H(), lists, Abs();
      RxLength(h0, l0);
      IsState(h0, l0, i);
      ProcessFrame(r, f, ts, releases, replies);
      KeptRx(h0, l0, H(), lists, i);
      UniqueUpdate(n.rx, i, StateAt(H(), lists, r));
      if Healthy(n.rx[i]) && !Trips(n.rx[i], f, ts) {
        FeedAnsweredIs(n, i, f, ts, releases, replies, TxOf(H(), lists), FreeCount(lists));
      }
    }

    /** A start frame the application wants. */
    method HandleStart(desc: nat, signature: bv64, f: Frame, ts: nat, releases: bool, replies: seq<Outgoing>)
      requires Valid() && f.data != [] && IsStart(Tail(f)) && desc == DescriptorOf(f.id)
      requires AllProper(replies)
      modifies arena, this`freeList, this`txQueue, this`rxStates, this`currentUsage, this`peakUsage, this`lists,
               this`lent, this`log, this`readable
      ensures Valid() && peakUsage >= old(peakUsage)
      ensures OnlyAnswered(nodeId, replies, old(TxOf(H(), lists)), old(log), TxOf(H(), lists), log)
      ensures Contained(old(RxOf(H(), lists)), RxOf(H(), lists), desc)
      ensures Started(old(Abs()), desc, signature, f, ts, releases, replies, old(readable), Abs(), readable)
    {
      hide Inv, HeldSet, FreeCount, Unique, Healthy, RxOf, TxOf, List, Trips, FeedAnswered, IsStart, Tail,
           Crc.AddSignature, DescriptorOf, OnlyAnswered, Contained;
      ghost var n := Abs();
      NothingAnswered(nodeId, replies, n.tx, log);
      Untouched(n.rx, desc);
      ghost var i := Find(n.rx, desc);
      ghost var j := if i < |n.rx| then i else 0;
      var r := TraverseRxStates(desc);
      if r == NULL {
        return;
      }
      ghost var n1 := Abs();
      RestartCrc(r, j, signature);
      assert Abs() == Opened(n, desc, signature);
      OpenedState(n, f, ts, signature);
      OpenedContained(n, desc, signature, Opened(n, desc, signature).rx[j]);
      FeedState(r, j, f, ts, releases, replies);
      OpenedContained(n, desc, signature, RxOf(H(), lists)[j]);
    }

    /** Processes a received frame. `releases` and `replies` say what the application does in its callback: whether it
        releases the payload of the transfer itself, and what it then sends. Whatever the frame, even one that trips an
        assertion, it touches no state of another descriptor, and the queue by those calls only. */
    method HandleRxFrame(f: Frame, ts: nat, releases: bool, replies: seq<Outgoing>)
      requires Valid() && AllProper(replies)
      modifies arena, this`freeList, this`txQueue, this`rxStates, this`currentUsage, this`peakUsage, this`lists,
               this`lent, this`log, this`readable
      ensures Valid() && peakUsage >= old(peakUsage)
      ensures OwnHealthy(old(RxOf(H(), lists)), DescriptorOf(f.id)) && !Faults(accept, old(Abs()), f, ts) ==>
                && (old(readable) ==> readable)
                && Abs() == HandleAnswered(accept, old(Abs()), f, ts, releases, replies)
      ensures Ignored(nodeId, f) ==> Abs() == old(Abs()) && readable == old(readable)
      ensures f.id / 0x80 % 2 == 1 && f.id / 0x100 % 0x80 != nodeId ==> Abs() == old(Abs())
      ensures Contained(old(RxOf(H(), lists)), RxOf(H(), lists), DescriptorOf(f.id))
      ensures OnlyAnswered(nodeId, replies, old(TxOf(H(), lists)), old(log), TxOf(H(), lists), log)
    {
      hide Inv, HeldSet, FreeCount, Unique, Healthy, RxOf, TxOf, List, Trips, FeedAnswered, HandleAnswered, IsStart,
           IsExtended, IsRemote, IsError, Tail, Opened, MakeDescriptor, OnlyAnswered,
           Contained;
      Untouched(RxOf(H(), lists), DescriptorOf(f.id));
      NothingAnswered(nodeId, replies, TxOf(H(), lists), log);
      HandleAnsweredIs(accept, Abs(), f, ts, releases, replies);
      IgnoredIff(nodeId, f);
      var header := HeaderOf(f.id);
      if !IsExtended(f.id) || IsRemote(f.id) || IsError(f.id) || |f.data| < 1 {
        return;
      }
      if ExtractTransferType(f.id) != TransferType.Broadcast && header.dest != nodeId {
        return;
      }
      var desc := MakeDescriptor(header);
      if IsStart(Tail(f)) {
        var signature := accept(header.dataTypeId, header.kind, header.source);
        if signature.Some? {
          HandleStart(desc, signature.value, f, ts, releases, replies);
        }
      } else {
        RxLength(H(), lists);
        ghost var rx := RxOf(H(), lists);
        ghost var i := Find(rx, desc);
        FoundInList(H(), lists, i);
        var r := FindRxState(desc);
        if r != NULL {
          FeedState(r, i, f, ts, releases, replies);
          OwnReplaced(rx, desc, RxOf(H(), lists)[i]);
        }
      }
    }

    // -------------------------------------------------------------------------------------------
    // Transmission

    method CreateTxItem() returns (b: Link)
      requires Consistent()
      modifies arena, this`freeList, this`currentUsage, this`peakUsage, this`lists
      ensures Consistent() && peakUsage >= old(peakUsage)
      ensures b == NULL <==> old(FreeCount(lists)) == 0
      ensures b == NULL ==> H() == old(H()) && lists == old(lists)
      ensures b != NULL ==>
                && 0 <= b < |lists.tag| && b < arena.Length && lists.tag[b] == Held
                && arena[b] == TxItem(NULL, NO_FRAME)
                && RxOf(H(), lists) == old(RxOf(H(), lists)) && TxOf(H(), lists) == old(TxOf(H(), lists))
                && FreeCount(lists) == old(FreeCount(lists)) - 1 && HeldSet(lists) == old(HeldSet(lists)) + {b}
                && b !in old(HeldSet(lists))
                && List(lists, InTransfer) == old(List(lists, InTransfer))
                && Aside(old(H()), old(lists), H(), lists)
    {
      hide Inv, KeptExcept, Without, StateAt, RxOf, TxOf, Aside;
      ghost var h0, l0 := H(), lists;
      Keys(h0, l0);
      b := AllocateBlock(0);
      if b == NULL {
        return;
      }
      ghost var h1 := H();
      TakeFreeContents(h0, l0, h1);
      WriteHeld(h1, lists, b, TxItem(NULL, NO_FRAME));
      arena[b] := TxItem(NULL, NO_FRAME);
      assert H() == h1.(mem := h1.mem[b := TxItem(NULL, NO_FRAME)]);
      CreatedAside(h0, l0, H(), b);
    }

    /** Puts an item on the queue, behind all frames that it does not beat on the bus. */
    method PushTxQueue(b: nat)
      requires Consistent() && b < |lists.tag| && b < arena.Length && lists.tag[b] == Held
      requires arena[b].TxItem? && arena[b].next == NULL && arena[b].frame.data != []
      modifies arena, this`txQueue, this`lists
      ensures Consistent()
      ensures TxOf(H(), lists) == Insert(old(TxOf(H(), lists)), old(arena[b].frame))
      ensures RxOf(H(), lists) == old(RxOf(H(), lists)) && FreeCount(lists) == old(FreeCount(lists))
      ensures HeldSet(lists) == old(HeldSet(lists)) - {b} && List(lists, InTransfer) == old(List(lists, InTransfer))
      ensures Aside(old(H()), old(lists), H(), lists)
    {
      hide Inv, With, StateAt, RxOf, TxOf, IsPriorityHigher, Typed, List, FreeCount, HeldSet, Insert, Position, Queued,
           Aside;
      ghost var h0, l0, s, tx := H(), lists, List(lists, InTx), TxOf(H(), lists);
      var frame := arena[b].frame;
      Keys(h0, l0);
      TxLength(h0, l0);
      ghost var i := LinkInOrder(b);
      PositionIs(tx, frame.id, i);
      AddItem(h0, l0, i, b, frame);
      QueueListed(h0, l0, s);
      lists := With(lists, InTx, i, b);
      InsertAt(tx, frame, i);
      HeldAfterPush(l0, lists, b);
    }

    /** Walks along the queue and links the item in front of the first frame it beats, or at the end. */
    method LinkInOrder(b: nat) returns (ghost i: nat)
      requires Consistent() && b < |lists.tag| && b < arena.Length && lists.tag[b] == Held
      requires arena[b].TxItem? && arena[b].next == NULL
      modifies arena, this`txQueue
      ensures InTx in lists.at && i <= |lists.at[InTx]| && (i > 0 ==> lists.at[InTx][i - 1] < |old(H()).mem|)
      ensures H() == Queued(old(H()), lists.at[InTx], i, b, old(arena[b].frame))
      ensures var tx := TxOf(old(H()), lists); var id := old(arena[b].frame).id;
              && i <= |tx| && (forall j | 0 <= j < i :: !IsPriorityHigher(tx[j].id, id))
              && (i < |tx| ==> IsPriorityHigher(tx[i].id, id))
    {
      hide Inv, StateAt, RxOf, TxOf, IsPriorityHigher, Typed, FreeCount, HeldSet;
      ghost var h0, s, tx := H(), List(lists, InTx), TxOf(H(), lists);
      Keys(h0, lists);
      QueueEnds(h0, lists);
      TxLength(h0, lists);
      Elements(h0, lists, InTx);
      var frame := arena[b].frame;
      i := 0;
      if txQueue == NULL {
        txQueue := b;
      } else {
        var queue, previous := txQueue, txQueue;
        while true
          invariant H() == h0 && i < |s| && queue == s[i] && previous == (if i == 0 then s[0] else s[i - 1])
          invariant forall j | 0 <= j < i :: !IsPriorityHigher(tx[j].id, frame.id)
          decreases |s| - i
        {
          QueueItem(h0, lists, i);
          if IsPriorityHigher(arena[queue].frame.id, frame.id) {
            LinkItem(b, queue, previous, i);
            break;
          }
          i := i + 1;
          if arena[queue].next == NULL {
            LinkLast(b, queue);
            break;
          }
          previous, queue := queue, arena[queue].next;
        }
      }
    }

    /** Links an item behind the last queue element. */
    method LinkLast(b: nat, queue: nat)
      requires Consistent() && b < |lists.tag| && b < arena.Length && lists.tag[b] == Held && arena[b].TxItem?
      requires arena[b].next == NULL
      requires var s := List(lists, InTx); s != [] && queue == s[|s| - 1]
      modifies arena
      ensures InTx in lists.at && var s := lists.at[InTx]; s[|s| - 1] < |old(H()).mem|
      ensures var s := lists.at[InTx]; H() == Queued(old(H()), s, |s|, b, old(arena[b].frame))
    {
      hide Inv;
      Elements(H(), lists, InTx);
      ghost var h0, s := H(), lists.at[InTx];
      arena[queue] := TxItem(b, arena[queue].frame);
      assert H() == Queued(h0, s, |s|, b, old(arena[b].frame));
    }

    /** Links an item in front of queue element i. */
    method LinkItem(b: nat, queue: nat, previous: nat, ghost i: nat)
      requires Consistent() && b < |lists.tag| && b < arena.Length && lists.tag[b] == Held && arena[b].TxItem?
      requires i < |List(lists, InTx)| && queue == List(lists, InTx)[i]
      requires previous == if i == 0 then List(lists, InTx)[0] else List(lists, InTx)[i - 1]
      modifies arena, this`txQueue
      ensures InTx in lists.at && i <= |lists.at[InTx]| && (i > 0 ==> lists.at[InTx][i - 1] < |old(H()).mem|)
      ensures H() == Queued(old(H()), lists.at[InTx], i, b, old(arena[b].frame))
    {
      hide Inv;
      Elements(H(), lists, InTx);
      ghost var h0, s := H(), lists.at[InTx];
      arena[b] := TxItem(queue, arena[b].frame);
      if queue == txQueue {
        txQueue := b;
      } else {
        arena[previous] := TxItem(b, arena[previous].frame);
      }
      assert H() == Queued(h0, s, i, b, h0.mem[b].frame);
    }

    /** Creates an item for a frame and queues it, if there is a block. */
    method EnqueueFrame(f: Frame) returns (ok: bool)
      requires Consistent() && f.data != []
      modifies arena, this`freeList, this`txQueue, this`currentUsage, this`peakUsage, this`lists
      ensures Consistent() && peakUsage >= old(peakUsage) && (old(Valid()) ==> Valid())
      ensures Aside(old(H()), old(lists), H(), lists) && HeldSet(lists) == old(HeldSet(lists))
      ensures ok <==> old(FreeCount(lists)) > 0
      ensures Abs() == if ok then old(Abs()).(tx := Insert(old(TxOf(H(), lists)), f), free := old(FreeCount(lists)) - 1)
                       else old(Abs())
    {
      hide Inv, StateAt, RxOf, TxOf, HeldSet, List, FreeCount, Insert, Unique, Aside;
      ghost var h0, l0 := H(), lists;
      Keys(h0, l0);
      AsideReflexive(h0, l0);
      var b := CreateTxItem();
      if b == NULL {
        return false;
      }
      ghost var h1, l1 := H(), lists;
      WriteHeld(h1, l1, b, TxItem(NULL, f));
      arena[b] := TxItem(NULL, f);
      assert H() == h1.(mem := h1.mem[b := TxItem(NULL, f)]);
      WrittenAside(h1, l1, b, TxItem(NULL, f));
      AsideTransitive(h0, l0, h1, l1, H(), l1);
      ghost var h2 := H();
      PushTxQueue(b);
      AsideTransitive(h0, l0, h2, l1, H(), lists);
      assert HeldSet(l0) + {b as nat} - {b} == HeldSet(l0);
      ok := true;
    }

    /** Fills the next frame of a multi-frame transfer with up to 7 bytes, the first one with the CRC and up to 5. */
    method FillFrame(id: nat, transferId: bv8, crc: bv16, payload: seq<bv8>, index: nat, toggle: bool)
      returns (frame: Frame, dataIndex: nat)
      requires id < EXT_ID_LIMIT && index < |payload|
      ensures frame == FrameFrom(id, transferId, crc, payload, index, toggle) && dataIndex == ChunkEnd(index, |payload|)
    {
      hide TailByte, CrcBytes;
      var data := if index == 0 then CrcBytes(crc) else [];
      dataIndex := index;
      while |data| < 7 && dataIndex < |payload|
        invariant index <= dataIndex <= |payload| && |data| <= 7
                && |data| == (if index == 0 then 2 else 0) + (dataIndex - index)
        invariant data == (if index == 0 then CrcBytes(crc) else []) + payload[index..dataIndex]
      {
        data := data + [payload[dataIndex]];
        assert payload[index..dataIndex + 1] == payload[index..dataIndex] + [payload[dataIndex]];
        dataIndex := dataIndex + 1;
      }
      var tail := TailByte(index == 0 && dataIndex < |payload|, dataIndex == |payload|, toggle, transferId);
      frame := FrameRaw.Frame(id + FRAME_EFF, data + [tail]);
    }

    lemma NothingQueued()
      requires Consistent()
      ensures Aside(H(), lists, H(), lists)
    {
      hide Inv, Aside;
      Keys(H(), lists);
      AsideReflexive(H(), lists);
    }

    /** The frames of a multi-frame transfer. */
    method EnqueueMulti(id: nat, transferId: bv8, crc: bv16, payload: seq<bv8>) returns (result: int)
      requires Consistent() && id < EXT_ID_LIMIT
      modifies arena, this`freeList, this`txQueue, this`currentUsage, this`peakUsage, this`lists
      ensures Consistent() && peakUsage >= old(peakUsage) && (old(Valid()) ==> Valid())
      ensures Aside(old(H()), old(lists), H(), lists) && HeldSet(lists) == old(HeldSet(lists))
      ensures Abs() == Transmitted(old(Abs()), FramesFrom(id, transferId, crc, payload, 0, false))
      ensures result == SendResult(old(Abs()), FramesFrom(id, transferId, crc, payload, 0, false))
    {
      hide Valid, Consistent, Insert, FreeCount, TxOf, RxOf, FrameFrom, FramesFrom, Transmitted, H, ChunkEnd, Aside,
           HeldSet;
      ghost var h0, l0 := H(), lists;
      NothingQueued();
      ghost var n, frames := Abs(), FramesFrom(id, transferId, crc, payload, 0, false);
      TransmittedNone(n);
      var dataIndex, toggle := 0, false;
      ghost var sent: seq<Frame> := [];
      result := 0;
      while |payload| - dataIndex != 0
        invariant dataIndex <= |payload| && result == |sent| <= n.free
        invariant frames == sent + FramesFrom(id, transferId, crc, payload, dataIndex, toggle)
        invariant Consistent() && Abs() == Transmitted(n, sent) && peakUsage >= old(peakUsage)
        invariant old(Valid()) ==> Valid()
        invariant Aside(h0, l0, H(), lists) && HeldSet(lists) == HeldSet(l0)
        decreases |payload| - dataIndex
      {
        FramesFromIs(id, transferId, crc, payload, dataIndex, toggle);
        var frame, end := FillFrame(id, transferId, crc, payload, dataIndex, toggle);
        ghost var rest := FramesFrom(id, transferId, crc, payload, end, !toggle);
        ghost var h1, l1 := H(), lists;
        var ok := EnqueueFrame(frame);
        AsideTransitive(h0, l0, h1, l1, H(), lists);
        TransmittedMore(n, sent, frame);
        OneMore(sent, frame, rest);
        if !ok {
          TransmittedNoMore(n, sent, [frame] + rest);
          return -OUT_OF_MEMORY;
        }
        sent := sent + [frame];
        dataIndex, result, toggle := end, result + 1, !toggle;
      }
      FramesFromIs(id, transferId, crc, payload, dataIndex, toggle);
      assert frames == sent;
    }

    /** Cuts a payload into frames and queues them. If the pool runs dry, the frames queued so far stay queued. */
    method EnqueueTxFrames(id: nat, transferId: bv8, crc: bv16, payload: seq<bv8>) returns (result: int)
      requires Consistent() && id < EXT_ID_LIMIT
      modifies arena, this`freeList, this`txQueue, this`currentUsage, this`peakUsage, this`lists
      ensures Consistent() && peakUsage >= old(peakUsage) && (old(Valid()) ==> Valid())
      ensures Aside(old(H()), old(lists), H(), lists) && HeldSet(lists) == old(HeldSet(lists))
      ensures Abs() == Transmitted(old(Abs()), TxFrames(id, transferId, crc, payload))
      ensures result == SendResult(old(Abs()), TxFrames(id, transferId, crc, payload))
    {
      hide Valid, Consistent, TailByte, Insert, FreeCount, TxOf, RxOf, FrameFrom, FramesFrom, Transmitted, H, Aside,
           HeldSet;
      if |payload| < 8 {
        ghost var n := Abs();
        TransmittedNone(n);
        var frame := FrameRaw.Frame(id + FRAME_EFF, payload + [TailByte(true, true, false, transferId)]);
        var ok := EnqueueFrame(frame);
        TransmittedMore(n, [], frame);
        assert [] + [frame] == TxFrames(id, transferId, crc, payload);
        result := if ok then 1 else -OUT_OF_MEMORY;
      } else {
        result := EnqueueMulti(id, transferId, crc, payload);
      }
    }

    /** The frame at the head of the queue. */
    method PeekTxQueue() returns (f: Option<Frame>)
      requires Consistent()
      ensures f == if TxOf(H(), lists) == [] then None else Some(TxOf(H(), lists)[0])
    {
      hide Inv;
      QueueEnds(H(), lists);
      TxLength(H(), lists);
      if txQueue == NULL {
        return None;
      }
      QueueItem(H(), lists, 0);
      f := Some(arena[txQueue].frame);
    }

    /** Removes the frame at the head of the queue. */
    method PopTxQueue()
      requires Valid() && TxOf(H(), lists) != []
      modifies arena, this`freeList, this`txQueue, this`currentUsage, this`lists
      ensures Valid() && Abs() == old(Abs()).(tx := old(TxOf(H(), lists))[1..], free := old(FreeCount(lists)) + 1)
    {
      hide Inv, StateAt, RxOf, TxOf, HeldSet, List, FreeCount, Unique, With, Without, KeptExcept;
      TxLength(H(), lists);
      QueueEnds(H(), lists);
      DropItem(H(), lists);
      ghost var h0, l0 := H(), lists;
      var b := txQueue;
      txQueue := arena[b].next;
      lists := Without(lists, InTx, 0);
      ghost var h1, l1 := H(), lists;
      Keys(h1, l1);
      GiveFreeContents(h1, l1, b);
      FreeBlock(b, 0);
      HeldAfterTwoMoves(l0.tag, lists.tag, b);
    }

    lemma Numbered()
      requires Valid() || Consistent()
      ensures Consistent() && nodeId < 128 && Abs().nodeId == nodeId
    {
    }

    /** Sends a message to all nodes; without a node ID, an anonymous one. */
    method Broadcast(signature: bv64, dataTypeId: nat, transferId: bv8, priority: nat, payload: seq<bv8>)
      returns (result: int, nextId: bv8)
      requires Consistent() && dataTypeId < 0x1_0000
      modifies arena, this`freeList, this`txQueue, this`currentUsage, this`peakUsage, this`lists
      ensures Consistent() && peakUsage >= old(peakUsage) && (old(Valid()) ==> Valid())
      ensures Aside(old(H()), old(lists), H(), lists) && HeldSet(lists) == old(HeldSet(lists))
      ensures match BroadcastPlan(nodeId, signature, dataTypeId, priority, payload)
              case Rejected(e) => result == -e && nextId == transferId && Abs() == old(Abs())
              case Planned(id, crc) =>
                && Abs() == Transmitted(old(Abs()), TxFrames(id, transferId, crc, payload))
                && result == SendResult(old(Abs()), TxFrames(id, transferId, crc, payload))
                && nextId == IncrementTransferId(transferId)
    {
      hide Valid, Consistent, Aside, HeldSet, TxFrames, Transmitted, SendResult, Discriminator, AnonymousId,
           BroadcastId, Crc.Add, Crc.AddSignature;
      Numbered();
      NothingQueued();
      nextId := transferId;
      if priority > 31 {
        return -INVALID_ARGUMENT, nextId;
      }
      var id: nat;
      var crc: bv16 := 0xFFFF;
      if nodeId == 0 {
        if |payload| > 7 {
          return -NODE_ID_NOT_SET, nextId;
        }
        if dataTypeId % 4 != dataTypeId {
          return -INVALID_ARGUMENT, nextId;
        }
        id := AnonymousId(priority, Discriminator(payload), dataTypeId);
      } else {
        id := BroadcastId(priority, dataTypeId, nodeId);
        if |payload| > 7 {
          crc := Crc.CrcAddSignature(crc, signature);
          crc := Crc.CrcAdd(crc, payload);
        }
      }
      PlannedId(nodeId, signature, dataTypeId, priority, payload);
      result := EnqueueTxFrames(id, transferId, crc, payload);
      nextId := IncrementTransferId(transferId);
    }

    /** Sends a service request or response to one node. The transfer ID of a response is the request's. */
    method RequestOrRespond(dest: nat, signature: bv64, dataTypeId: nat, transferId: bv8, priority: nat, request: bool,
                            payload: seq<bv8>)
      returns (result: int, nextId: bv8)
      requires Consistent() && dataTypeId < 0x100 && dest < 0x100
      modifies arena, this`freeList, this`txQueue, this`currentUsage, this`peakUsage, this`lists
      ensures Consistent() && peakUsage >= old(peakUsage) && (old(Valid()) ==> Valid())
      ensures Aside(old(H()), old(lists), H(), lists) && HeldSet(lists) == old(HeldSet(lists))
      ensures match ServicePlan(nodeId, dest, signature, dataTypeId, priority, request, payload)
              case Rejected(e) => result == -e && nextId == transferId && Abs() == old(Abs())
              case Planned(id, crc) =>
                && Abs() == Transmitted(old(Abs()), TxFrames(id, transferId, crc, payload))
                && result == SendResult(old(Abs()), TxFrames(id, transferId, crc, payload))
                && nextId == if request then IncrementTransferId(transferId) else transferId
    {
      hide Valid, Consistent, Aside, HeldSet, TxFrames, Transmitted, SendResult, ServiceId, Crc.Add, Crc.AddSignature;
      Numbered();
      NothingQueued();
      nextId := transferId;
      if priority > 31 {
        return -INVALID_ARGUMENT, nextId;
      }
      if nodeId == 0 {
        return -NODE_ID_NOT_SET, nextId;
      }
      var id := ServiceId(priority, dataTypeId, request, dest, nodeId);
      var crc: bv16 := 0xFFFF;
      if |payload| > 7 {
        crc := Crc.CrcAddSignature(crc, signature);
        crc := Crc.CrcAdd(crc, payload);
      }
      PlannedServiceId(nodeId, dest, signature, dataTypeId, priority, request, payload);
      result := EnqueueTxFrames(id, transferId, crc, payload);
      if request {
        nextId := IncrementTransferId(transferId);
      }
    }

    /** A call of the application. */
    method Send(call: Outgoing)
      requires Consistent() && call.Proper()
      modifies arena, this`freeList, this`txQueue, this`currentUsage, this`peakUsage, this`lists
      ensures Consistent() && peakUsage >= old(peakUsage) && (old(Valid()) ==> Valid())
      ensures Aside(old(H()), old(lists), H(), lists) && HeldSet(lists) == old(HeldSet(lists))
      ensures nodeId < 128 && Abs() == Transmitted(old(Abs()), call.FramesFor(nodeId))
    {
      hide Valid, Consistent, Aside, HeldSet, H, TxOf, RxOf, FreeCount, TxFrames, Transmitted, BroadcastPlan,
           ServicePlan, SendResult;
      Numbered();
      ghost var n := Abs();
      FramesForPlan(n, call);
      match call {
        case Publish(signature, dataTypeId, transferId, priority, payload) =>
          var result, nextId := Broadcast(signature, dataTypeId, transferId, priority, payload);
        case Ask(dest, signature, dataTypeId, transferId, priority, request, payload) =>
          var result, nextId := RequestOrRespond(dest, signature, dataTypeId, transferId, priority, request, payload);
      }
    }

    /** Calls of the application, one after the other, perhaps while it holds a transfer. */
    method SendAll(calls: seq<Outgoing>)
      requires Consistent() && AllProper(calls)
      modifies arena, this`freeList, this`txQueue, this`currentUsage, this`peakUsage, this`lists
      ensures Consistent() && peakUsage >= old(peakUsage) && (old(Valid()) ==> Valid())
      ensures Aside(old(H()), old(lists), H(), lists) && HeldSet(lists) == old(HeldSet(lists))
      ensures old(Abs()).nodeId < 128 && Abs() == Called(old(Abs()), calls)
    {
      hide Valid, Consistent, Aside, HeldSet, H, TxOf, RxOf, FreeCount, Abs, Transmitted;
      Numbered();
      NothingQueued();
      ghost var h0, l0, n := H(), lists, Abs();
      CalledNone(n);
      for i := 0 to |calls|
        invariant Consistent() && peakUsage >= old(peakUsage) && (old(Valid()) ==> Valid())
        invariant Aside(h0, l0, H(), lists) && HeldSet(lists) == HeldSet(l0)
        invariant Abs() == Called(n, calls[..i])
      {
        ghost var h1, l1 := H(), lists;
        Numbered();
        CalledMore(n, calls[..i], calls[i]);
        assert calls[..i + 1] == calls[..i] + [calls[i]];
        Send(calls[i]);
        AsideTransitive(h0, l0, h1, l1, H(), lists);
      }
      assert calls[..|calls|] == calls;
    }

    /** The node ID is set once, to a value from 1 to 127. */
    method SetLocalNodeID(id: nat)
      requires Valid()
      modifies this`nodeId
      ensures Valid() && Abs() == old(Abs()).(nodeId := if old(nodeId) == 0 && 1 <= id <= 127 then id else old(nodeId))
    {
      hide Inv, StateAt, RxOf, TxOf, HeldSet, List, FreeCount, Unique;
      if nodeId == 0 && 1 <= id && id <= 127 {
        nodeId := id;
      }
    }

    // -------------------------------------------------------------------------------------------
    // Cleanup

    /** Unlinks element j of the list of states. It holds no buffers any more. */
    method UnlinkState(state: nat, prev: Link, ghost j: nat)
      requires Consistent() && j < |List(lists, InRx)| && state == List(lists, InRx)[j] && BuffersOf(lists, state) == []
      requires j > 0 ==> prev == List(lists, InRx)[j - 1]
      modifies arena, this`rxStates, this`lists
      ensures Consistent() && j < |RxOf(old(H()), old(lists))|
      ensures RxOf(H(), lists) == WithoutState(old(RxOf(H(), lists)), j)
      ensures TxOf(H(), lists) == old(TxOf(H(), lists)) && FreeCount(lists) == old(FreeCount(lists))
      ensures List(lists, InTransfer) == old(List(lists, InTransfer)) && j <= |List(lists, InRx)|
      ensures List(lists, InRx) == Removed(old(List(lists, InRx)), j)
      ensures state < |lists.tag| == |old(lists.tag)| && old(lists.tag)[state] == InRx
      ensures lists.tag == old(lists.tag)[state := Held]
    {
      hide Inv, RxOf, TxOf, FreeCount, Without, BuffersOf, WithoutState;
      ghost var h0, l0, s := H(), lists, List(lists, InRx);
      Keys(h0, l0);
      Elements(h0, l0, InRx);
      NextElement(h0, l0, InRx, j);
      DropState(h0, l0, j);
      RxLength(h0, l0);
      if state == rxStates {
        rxStates := arena[state].next;
      } else {
        arena[prev] := RxBlock(arena[state].next, arena[prev].buffers, arena[prev].fields);
      }
      lists := Without(lists, InRx, j);
      assert H() == Unlinked(h0, s, j);
    }

    /** Frees element j of the list of states with its buffers; `next` is the element that takes its place. */
    method RemoveState(state: nat, prev: Link, ghost j: nat) returns (next: Link)
      requires Valid() && j < |List(lists, InRx)| && state == List(lists, InRx)[j]
      requires j > 0 ==> prev == List(lists, InRx)[j - 1]
      modifies arena, this`freeList, this`rxStates, this`currentUsage, this`lists
      ensures Valid() && j < |old(RxOf(H(), lists))|
      ensures Abs() == old(Abs()).(rx := WithoutState(old(RxOf(H(), lists)), j),
                                   free := old(FreeCount(lists)) + 1 + old(RxOf(H(), lists))[j].blocks)
      ensures List(lists, InRx) == Removed(old(List(lists, InRx)), j) && next == At(List(lists, InRx), j)
    {
      hide Inv, RxOf, TxOf, FreeCount, HeldSet, Without, With, WithoutState, BuffersOf, KeptExcept, KeptRest, StateAt,
           Unique, List;
      ghost var h0, l0 := H(), lists;
      RxLength(h0, l0);
      IsState(h0, l0, j);
      StateIs(h0, l0, state);
      ReleaseStatePayload(state);
      ghost var h1, l1 := H(), lists;
      KeptIsRest(h0, l0, h1, l1, state);
      KeptQueue(h0, l0, h1, l1, state);
      KeptRx(h0, l0, h1, l1, j);
      SameInRx(h0, l0, h1, l1, state);
      next := arena[state].next;
      NextState(h1, l1, j);
      UnlinkState(state, prev, j);
      ghost var h2, l2 := H(), lists;
      GiveFreeContents(h2, l2, state);
      FreeBlock(state, 0);
      HeldAfterTwoMoves(l1.tag, lists.tag, state);
      UniqueWithout(RxOf(h0, l0), j);
      SameWithout(RxOf(h0, l0), RxOf(h1, l1), j);
      RemovedAt(List(l0, InRx), j);
    }

    /** Removes element j of the list of states if it is stale. */
    method CheckState(state: nat, prev: Link, now: nat, ghost j: nat) returns (next: Link, kept: bool)
      requires Valid() && j < |List(lists, InRx)| && state == List(lists, InRx)[j]
      requires j > 0 ==> prev == List(lists, InRx)[j - 1]
      modifies arena, this`freeList, this`rxStates, this`currentUsage, this`lists
      ensures Valid() && j < |old(Abs()).rx| && kept == !Stale(old(Abs()).rx[j], now)
      ensures var n := old(Abs());
              Abs() == if kept then n else n.(rx := WithoutState(n.rx, j), free := n.free + 1 + n.rx[j].blocks)
      ensures |List(lists, InRx)| == |Abs().rx|
      ensures List(lists, InRx) == if kept then old(List(lists, InRx)) else Removed(old(List(lists, InRx)), j)
      ensures next == At(List(lists, InRx), if kept then j + 1 else j)
    {
      hide Inv, RxOf, TxOf, FreeCount, HeldSet, List, StateAt, Unique, WithoutState, Elapsed, Removed;
      RxLength(H(), lists);
      IsState(H(), lists, j);
      StateIs(H(), lists, state);
      kept := !(Elapsed(now, FieldsOf(arena[state]).timestamp) > TRANSFER_TIMEOUT);
      if kept {
        NextState(H(), lists, j);
        next := arena[state].next;
      } else {
        next := RemoveState(state, prev, j);
      }
      RxLength(H(), lists);
    }

    lemma StatesListed()
      requires Valid()
      ensures |List(lists, InRx)| == |Abs().rx| && rxStates == At(List(lists, InRx), 0)
    {
      hide Inv, StateAt, HeldSet;
      RxLength(H(), lists);
      StatesEnd(H(), lists);
    }

    /** Frees every state that is older than the transfer timeout. */
    method CleanupStaleTransfers(now: nat)
      requires Valid()
      modifies arena, this`freeList, this`rxStates, this`currentUsage, this`lists
      ensures Valid() && Abs() == Cleaned(old(Abs()), now)
    {
      hide Valid, Abs, List, WithoutState, Stale, Removed, Cleaned, Cleaning, Cursor;
      ghost var n, k, j := Abs(), 0, 0;
      StatesListed();
      var prev, state := rxStates, rxStates;
      CleaningStarts(n, now);
      CursorStarts(List(lists, InRx), state);
      while state != NULL
        invariant Valid() && Cleaning(n, now, k, j, Abs()) && |List(lists, InRx)| == |Abs().rx|
        invariant Cursor(List(lists, InRx), j, state, prev)
        decreases |n.rx| - k
      {
        ghost var s := List(lists, InRx);
        CursorAt(s, j, state, prev);
        CleaningStep(n, now, k, j, Abs());
        var next, kept := CheckState(state, prev, now, j);
        CursorMoves(s, j, state, prev);
        if kept {
          prev := state;
          j := j + 1;
        }
        state := next;
        k := k + 1;
      }
      CursorAt(List(lists, InRx), j, state, prev);
      CleaningEnds(n, now, k, j, Abs());
    }
  }
}

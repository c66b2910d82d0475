/** What the pool's lists hold: queued frames and reception states, and what each pool step leaves unchanged. */
module Contents {
  import opened CanFrames
  import opened Pool
  import opened Reception

  /** Byte i of a scattered payload: the first 6 bytes in the head, the rest in 28-byte blocks. */
  function ByteAt(mem: seq<Block>, head: seq<bv8>, blocks: seq<nat>, i: nat): bv8 {
    if i < HEAD_SIZE then (if i < |head| then head[i] else 0)
    else
      var q, j := (i - HEAD_SIZE) / BLOCK_SIZE, (i - HEAD_SIZE) % BLOCK_SIZE;
      if q < |blocks| && blocks[q] < |mem| && mem[blocks[q]].BufferBlock? && j < |mem[blocks[q]].data|
      then mem[blocks[q]].data[j] else 0
  }

  function Payload(mem: seq<Block>, head: seq<bv8>, blocks: seq<nat>, n: nat): seq<bv8> {
    seq(n, i requires 0 <= i < n => ByteAt(mem, head, blocks, i))
  }

  function FieldsOf(b: Block): Fields {
    if b.RxBlock? then b.fields else Fields(0, 0, 0, 0, 0, 0, false, [])
  }

  function StateOf(mem: seq<Block>, r: nat, blocks: seq<nat>): RxState {
    var f := if r < |mem| then FieldsOf(mem[r]) else FieldsOf(FreeBlock(NULL));
    RxState(f.desc, f.timestamp, Payload(mem, f.head, blocks, f.length), |blocks|,
            f.payloadCrc, f.calculatedCrc, f.transferId, f.toggle)
  }

  function BuffersOf(l: Lists, r: nat): seq<nat> {
    if InBuffers(r) in l.at then l.at[InBuffers(r)] else []
  }

  function StateAt(h: Heap, l: Lists, r: nat): RxState {
    StateOf(h.mem, r, BuffersOf(l, r))
  }

  function List(l: Lists, k: Key): seq<nat> {
    if k in l.at then l.at[k] else []
  }

  function RxOf(h: Heap, l: Lists): seq<RxState> {
    var s := List(l, InRx);
    seq(|s|, i requires 0 <= i < |s| => StateAt(h, l, s[i]))
  }

  const NO_FRAME: Frame := FrameRaw.Frame(0, [])

  function FrameAt(h: Heap, b: nat): Frame {
    if b < |h.mem| && h.mem[b].TxItem? then h.mem[b].frame else NO_FRAME
  }

  function TxOf(h: Heap, l: Lists): seq<Frame> {
    var s := List(l, InTx);
    seq(|s|, i requires 0 <= i < |s| => FrameAt(h, s[i]))
  }

  // ---------------------------------------------------------------------------------------------
  // Frames

  /** Equal up to links. */
  predicate SameContent(a: Block, b: Block) {
    || (a.FreeBlock? && b.FreeBlock?)
    || (a.TxItem? && b.TxItem? && a.frame == b.frame)
    || (a.RxBlock? && b.RxBlock? && a.fields == b.fields)
    || (a.BufferBlock? && b.BufferBlock? && a.data == b.data)
  }

  /** Blocks that are not free or held may differ in their links only. */
  predicate SameContents(mem: seq<Block>, mem': seq<Block>, tag: seq<Key>) {
    && |mem'| == |mem| == |tag|
    && forall b: nat {:trigger mem'[b]} | b < |mem| && tag[b] != Held && tag[b] != InFree ::
       SameContent(mem[b], mem'[b])
  }

  lemma RelinkContents(h: Heap, tag: seq<Key>, k: Key, s: seq<nat>, i: nat, v: Link)
    requires |tag| == |h.mem|
    ensures SameContents(h.mem, Relink(h, k, s, i, v).mem, tag)
  {
  }

  lemma SameFromHeld(mem': seq<Block>, mem: seq<Block>, tag: seq<Key>, b: nat)
    requires b < |mem| == |tag| && tag[b] == InFree && SameContents(mem, mem', tag[b := Held])
    ensures SameContents(mem, mem', tag)
  {
    forall c: nat | c < |mem| && tag[c] != Held && tag[c] != InFree ensures SameContent(mem[c], mem'[c]) {
      assert tag[b := Held][c] == tag[c];
    }
  }

  lemma WriteContents(mem: seq<Block>, tag: seq<Key>, b: nat, v: Block)
    requires |tag| == |mem| && b < |mem| && (tag[b] == Held || tag[b] == InFree || SameContent(mem[b], v))
    ensures SameContents(mem, mem[b := v], tag)
  {
  }

  /** Only state r, its buffers and blocks that were free or held may differ. */
  ghost predicate KeptExcept(h: Heap, l: Lists, h': Heap, l': Lists, r: nat) {
    && |h'.mem| == |h.mem| == |l.tag| == |l'.tag|
    && List(l', InTx) == List(l, InTx) && List(l', InRx) == List(l, InRx) && List(l', InTransfer) == List(l, InTransfer)
    && h'.lent == h.lent
    && (forall q: nat {:trigger BuffersOf(l', q)} | q != r :: BuffersOf(l', q) == BuffersOf(l, q))
    && (forall b: nat {:trigger l'.tag[b]} {:trigger h'.mem[b]} | b < |l.tag| && Foreign(l.tag[b], r) ::
          l'.tag[b] == l.tag[b] && (b != r ==> SameContent(h.mem[b], h'.mem[b])))
  }

  predicate Foreign(k: Key, r: nat) {
    k != Held && k != InFree && k != InBuffers(r)
  }

  lemma KeptReflexive(h: Heap, l: Lists, r: nat)
    requires |h.mem| == |l.tag|
    ensures KeptExcept(h, l, h, l, r)
  {
  }

  lemma KeptTransitive(h: Heap, l: Lists, h1: Heap, l1: Lists, h2: Heap, l2: Lists, r: nat)
    requires KeptExcept(h, l, h1, l1, r) && KeptExcept(h1, l1, h2, l2, r)
    ensures KeptExcept(h, l, h2, l2, r)
  {
    forall q: nat | q != r ensures BuffersOf(l2, q) == BuffersOf(l, q) {
      assert BuffersOf(l1, q) == BuffersOf(l, q);
    }
    forall b: nat | b < |l.tag| && Foreign(l.tag[b], r)
      ensures l2.tag[b] == l.tag[b] && (b != r ==> SameContent(h.mem[b], h2.mem[b]))
    {
      assert l1.tag[b] == l.tag[b];
    }
  }

  /** Like KeptExcept, but the TX queue and the blocks lent to the application may have changed as well. */
  ghost predicate KeptRest(h: Heap, l: Lists, h': Heap, l': Lists, r: nat) {
    && |h'.mem| == |h.mem| == |l.tag| == |l'.tag|
    && List(l', InRx) == List(l, InRx)
    && (forall q: nat {:trigger BuffersOf(l', q)} | q != r :: BuffersOf(l', q) == BuffersOf(l, q))
    && (forall b: nat {:trigger l'.tag[b]} {:trigger h'.mem[b]} | b < |l.tag| && Foreign(l.tag[b], r)
       && l.tag[b] != InTransfer ::
          l'.tag[b] == l.tag[b] && (b != r ==> SameContent(h.mem[b], h'.mem[b])))
  }

  lemma KeptIsRest(h: Heap, l: Lists, h': Heap, l': Lists, r: nat)
    requires KeptExcept(h, l, h', l', r)
    ensures KeptRest(h, l, h', l', r) && List(l', InTransfer) == List(l, InTransfer) && h'.lent == h.lent
    ensures List(l', InTx) == List(l, InTx)
  {
  }

  lemma RestReflexive(h: Heap, l: Lists, r: nat)
    requires |h.mem| == |l.tag|
    ensures KeptRest(h, l, h, l, r)
  {
  }

  lemma RestTransitive(h: Heap, l: Lists, h1: Heap, l1: Lists, h2: Heap, l2: Lists, r: nat)
    requires KeptRest(h, l, h1, l1, r) && KeptRest(h1, l1, h2, l2, r)
    ensures KeptRest(h, l, h2, l2, r)
  {
    forall q: nat | q != r ensures BuffersOf(l2, q) == BuffersOf(l, q) {
      assert BuffersOf(l1, q) == BuffersOf(l, q);
    }
    forall b: nat | b < |l.tag| && Foreign(l.tag[b], r) && l.tag[b] != InTransfer
      ensures l2.tag[b] == l.tag[b] && (b != r ==> SameContent(h.mem[b], h2.mem[b]))
    {
      assert l1.tag[b] == l.tag[b];
    }
  }

  lemma KeptState(h: Heap, l: Lists, h': Heap, l': Lists, r: nat, q: nat)
    requires Inv(h, l) && KeptRest(h, l, h', l', r) && q != r && q < |l.tag| && l.tag[q] == InRx
    requires r < |l.tag| && l.tag[r] == InRx
    ensures StateAt(h', l', q) == StateAt(h, l, q)
  {
    hide *;
    StateBlock(h, l, q);
    Elements(h, l, InBuffers(q));
    KeptBlock(h, l, h', l', r, q);
    var s := BuffersOf(l, q);
    KeptPayload(FieldsOf(h.mem[q]).head, s, FieldsOf(h.mem[q]).length, h, l, h', l', r, q);
    EqualStates(h, l, h', l', q);
  }

  lemma KeptBlock(h: Heap, l: Lists, h': Heap, l': Lists, r: nat, q: nat)
    requires KeptRest(h, l, h', l', r) && q != r && q < |l.tag| && l.tag[q] == InRx && InBuffers(q) in l.at
    ensures |l.tag| == |h.mem| == |h'.mem| && BuffersOf(l', q) == BuffersOf(l, q) == l.at[InBuffers(q)]
    ensures FieldsOf(h'.mem[q]) == FieldsOf(h.mem[q])
  {
    assert l'.tag[q] == l.tag[q];
  }

  lemma EqualStates(h: Heap, l: Lists, h': Heap, l': Lists, q: nat)
    requires q < |h.mem| == |h'.mem| && FieldsOf(h'.mem[q]) == FieldsOf(h.mem[q]) && BuffersOf(l', q) == BuffersOf(l, q)
    requires var f := FieldsOf(h.mem[q]);
             Payload(h'.mem, f.head, BuffersOf(l, q), f.length) == Payload(h.mem, f.head, BuffersOf(l, q), f.length)
    ensures StateAt(h', l', q) == StateAt(h, l, q)
  {
  }

  lemma KeptPayload(head: seq<bv8>, s: seq<nat>, n: nat, h: Heap, l: Lists, h': Heap, l': Lists, r: nat, q: nat)
    requires KeptRest(h, l, h', l', r) && q != r
    requires forall j | 0 <= j < |s| :: s[j] < |l.tag| && l.tag[s[j]] == InBuffers(q)
    requires r < |l.tag| && l.tag[r] == InRx
    ensures Payload(h'.mem, head, s, n) == Payload(h.mem, head, s, n)
  {
    forall i: nat | i < n ensures ByteAt(h'.mem, head, s, i) == ByteAt(h.mem, head, s, i) {
      if i >= HEAD_SIZE && (i - HEAD_SIZE) / BLOCK_SIZE < |s| {
        var b := s[(i - HEAD_SIZE) / BLOCK_SIZE];
        assert l'.tag[b] == l.tag[b];
      }
    }
  }

  lemma KeptTx(h: Heap, l: Lists, h': Heap, l': Lists, r: nat)
    requires Inv(h, l) && KeptRest(h, l, h', l', r) && r < |l.tag| && l.tag[r] == InRx
    requires List(l', InTx) == List(l, InTx)
    ensures TxOf(h', l') == TxOf(h, l)
  {
    hide *;
    Keys(h, l);
    Elements(h, l, InTx);
    KeptFrames(h, l, h', l', r);
  }

  lemma KeptQueue(h: Heap, l: Lists, h': Heap, l': Lists, r: nat)
    requires Inv(h, l) && KeptExcept(h, l, h', l', r) && r < |l.tag| && l.tag[r] == InRx
    ensures TxOf(h', l') == TxOf(h, l)
  {
    hide Inv, KeptRest, TxOf;
    KeptIsRest(h, l, h', l', r);
    KeptTx(h, l, h', l', r);
  }

  lemma KeptFrames(h: Heap, l: Lists, h': Heap, l': Lists, r: nat)
    requires KeptRest(h, l, h', l', r) && r < |l.tag| && l.tag[r] == InRx && InTx in l.at
    requires List(l', InTx) == List(l, InTx)
    requires forall j | 0 <= j < |l.at[InTx]| :: l.at[InTx][j] < |l.tag| && l.tag[l.at[InTx][j]] == InTx
    ensures TxOf(h', l') == TxOf(h, l)
  {
    var s := l.at[InTx];
    forall i | 0 <= i < |s| ensures FrameAt(h', s[i]) == FrameAt(h, s[i]) {
      assert l'.tag[s[i]] == l.tag[s[i]];
    }
  }

  /** A step on state i of the reception list replaces element i of the logical list. */
  lemma KeptRx(h: Heap, l: Lists, h': Heap, l': Lists, i: nat)
    requires Inv(h, l) && i < |List(l, InRx)| && KeptRest(h, l, h', l', List(l, InRx)[i])
    ensures RxOf(h', l') == RxOf(h, l)[i := StateAt(h', l', List(l, InRx)[i])]
  {
    hide *;
    ListOfStates(h, l);
    var s := List(l, InRx);
    Elements(h, l, InRx);
    forall j | 0 <= j < |s| && j != i ensures StateAt(h', l', s[j]) == StateAt(h, l, s[j]) {
      DistinctElements(s, i, j);
      KeptState(h, l, h', l', s[i], s[j]);
    }
    KeptRxList(h, l, h', l', i);
  }

  lemma ListOfStates(h: Heap, l: Lists)
    requires Inv(h, l)
    ensures InRx in l.at && List(l, InRx) == l.at[InRx]
  {
  }

  lemma DistinctElements(s: seq<nat>, i: nat, j: nat)
    requires Distinct(s) && i < |s| && j < |s| && i != j
    ensures s[i] != s[j]
  {
  }

  lemma KeptRxList(h: Heap, l: Lists, h': Heap, l': Lists, i: nat)
    requires i < |List(l, InRx)| && KeptRest(h, l, h', l', List(l, InRx)[i])
    requires var s := List(l, InRx);
             forall j | 0 <= j < |s| && j != i :: StateAt(h', l', s[j]) == StateAt(h, l, s[j])
    ensures RxOf(h', l') == RxOf(h, l)[i := StateAt(h', l', List(l, InRx)[i])]
  {
    hide StateAt;
  }

  // ---------------------------------------------------------------------------------------------
  // Growing a payload

  predicate AreBuffers(mem: seq<Block>, s: seq<nat>) {
    forall i | 0 <= i < |s| :: s[i] < |mem| && mem[s[i]].BufferBlock? && |mem[s[i]].data| == BLOCK_SIZE
  }

  lemma PayloadGrowsInHead(mem: seq<Block>, head: seq<bv8>, s: seq<nat>, p: nat, x: bv8)
    requires p < HEAD_SIZE == |head|
    ensures Payload(mem, head[p := x], s, p + 1) == Payload(mem, head, s, p) + [x]
  {
  }

  lemma PayloadGrowsInBlock(mem: seq<Block>, head: seq<bv8>, s: seq<nat>, j: nat, x: bv8)
    requires AreBuffers(mem, s) && Distinct(s) && s != [] && j < BLOCK_SIZE
    ensures var b := s[|s| - 1]; var p := HEAD_SIZE + BLOCK_SIZE * (|s| - 1) + j;
            Payload(mem[b := mem[b].(data := mem[b].data[j := x])], head, s, p + 1) == Payload(mem, head, s, p) + [x]
  {
    var b, p := s[|s| - 1], HEAD_SIZE + BLOCK_SIZE * (|s| - 1) + j;
    var mem' := mem[b := mem[b].(data := mem[b].data[j := x])];
    PositionInBlocks(|s| - 1, j);
    forall i: nat | i < p + 1 ensures ByteAt(mem', head, s, i) == if i == p then x else ByteAt(mem, head, s, i) {
      if i >= HEAD_SIZE {
        BlockOfPosition(i - HEAD_SIZE, |s| - 1, j);
      }
    }
  }

  lemma PositionInBlocks(q: nat, j: nat)
    requires j < BLOCK_SIZE
    ensures (BLOCK_SIZE * q + j) / BLOCK_SIZE == q && (BLOCK_SIZE * q + j) % BLOCK_SIZE == j
  {
    Field(BLOCK_SIZE * q + j, BLOCK_SIZE, q, j);
  }

  lemma BlockOfPosition(n: nat, q: nat, j: nat)
    requires j < BLOCK_SIZE && n <= BLOCK_SIZE * q + j
    ensures n / BLOCK_SIZE <= q && (n / BLOCK_SIZE == q && n % BLOCK_SIZE == j ==> n == BLOCK_SIZE * q + j)
    ensures n / BLOCK_SIZE == q && n != BLOCK_SIZE * q + j ==> n % BLOCK_SIZE != j
  {
  }

  lemma PayloadKeptByBlock(mem: seq<Block>, mem': seq<Block>, head: seq<bv8>, s: seq<nat>, b: nat, p: nat)
    requires p <= HEAD_SIZE + BLOCK_SIZE * |s|
    requires forall i | 0 <= i < |s| :: s[i] < |mem| && s[i] < |mem'| && SameContent(mem[s[i]], mem'[s[i]])
    ensures Payload(mem', head, s + [b], p) == Payload(mem, head, s, p)
  {
    forall i: nat | i < p ensures ByteAt(mem', head, s + [b], i) == ByteAt(mem, head, s, i) {
      if i >= HEAD_SIZE {
        assert (i - HEAD_SIZE) / BLOCK_SIZE < |s|;
      }
    }
  }

  // ---------------------------------------------------------------------------------------------
  // Delivered payloads

  /** Byte i of a multi-frame transfer: head, then blocks, then what the last frame still holds. */
  function ScatteredByte(mem: seq<Block>, head: seq<bv8>, blocks: seq<nat>, tail: Option<seq<bv8>>, i: nat): bv8 {
    if i < HEAD_SIZE + BLOCK_SIZE * |blocks| then ByteAt(mem, head, blocks, i)
    else
      var j := i - HEAD_SIZE - BLOCK_SIZE * |blocks|;
      if tail.Some? && j < |tail.value| then tail.value[j] else 0
  }

  /** The payload a transfer's pointers describe. With neither blocks nor tail it is all in the head. */
  function Gathered(mem: seq<Block>, head: seq<bv8>, blocks: seq<nat>, tail: Option<seq<bv8>>, length: nat): seq<bv8> {
    if blocks == [] && tail.None? then
      seq(length, i requires 0 <= i < length => if i < |head| then head[i] else 0)
    else
      seq(length, i requires 0 <= i < length => ScatteredByte(mem, head, blocks, tail, i))
  }

  /** The pointers cover the payload: what reading it by bit offset relies on. */
  predicate WellScattered(head: seq<bv8>, blocks: nat, tail: Option<seq<bv8>>, length: nat) {
    if blocks == 0 && tail.None? then length <= |head|
    else
      && |head| == HEAD_SIZE <= length
      && (tail.Some? ==> tail.value != [] && length == HEAD_SIZE + BLOCK_SIZE * blocks + |tail.value|)
      && (tail.None? ==> length <= HEAD_SIZE + BLOCK_SIZE * blocks)
  }

  /** The last frame of a transfer, as far as it fits, continues the stored payload; the rest stays in the frame. */
  lemma GatheredPayload(mem: seq<Block>, head: seq<bv8>, blocks: seq<nat>, body: seq<bv8>, d: nat, n: nat)
    requires |head| == HEAD_SIZE && d <= |body|
    requires d == |body| || n + d == HEAD_SIZE + BLOCK_SIZE * |blocks|
    requires n + d <= HEAD_SIZE + BLOCK_SIZE * |blocks| && (blocks != [] ==> HEAD_SIZE <= n + d)
    ensures var tail := if d == |body| then None else Some(body[d..]);
            && Gathered(mem, head, blocks, tail, n + |body|) == Payload(mem, head, blocks, n + d) + body[d..]
            && WellScattered(head, |blocks|, tail, n + |body|)
  {
    var tail := if d == |body| then None else Some(body[d..]);
    var g := Gathered(mem, head, blocks, tail, n + |body|);
    forall i | 0 <= i < n + |body| ensures g[i] == (Payload(mem, head, blocks, n + d) + body[d..])[i] {
    }
  }
}

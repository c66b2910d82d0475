/** The pool steps the library composes, seen from one reception state: what each keeps and what it counts. */
module Steps {
  import opened CanFrames
  import opened Pool
  import opened Reception
  import opened Contents

  function FreeCount(l: Lists): nat { |List(l, InFree)| }

  ghost function HeldSet(l: Lists): set<nat> {
    set b: nat | b < |l.tag| && l.tag[b] == Held
  }

  // ---------------------------------------------------------------------------------------------
  // The free list

  /** A change of the free list or of the buffers of state r is invisible elsewhere. */
  lemma KeptByListChange(h: Heap, l: Lists, h': Heap, l': Lists, r: nat, k: Key, t: seq<nat>, b: nat, k': Key)
    requires |l.tag| == |h.mem| == |h'.mem| && h'.lent == h.lent && b < |l.tag| && !Foreign(l.tag[b], r)
    requires k == InFree || k == InBuffers(r)
    requires l' == Lists(l.at[k := t], l.tag[b := k'])
    requires SameContents(h.mem, h'.mem, l.tag[b := Held])
    ensures KeptExcept(h, l, h', l', r)
  {
    forall c: nat | c < |l.tag| && Foreign(l.tag[c], r)
      ensures l'.tag[c] == l.tag[c] && (c != r ==> SameContent(h.mem[c], h'.mem[c]))
    {
      assert l.tag[b := Held][c] == l.tag[c];
    }
  }

  lemma ListChange(l: Lists, k: Key, t: seq<nat>, r: nat)
    requires k in l.at && k != InTx && k != InRx && k != InTransfer
    ensures var l' := Lists(l.at[k := t], l.tag);
            && (k == InBuffers(r) ==> BuffersOf(l', r) == t)
            && (k != InBuffers(r) ==> BuffersOf(l', r) == BuffersOf(l, r))
            && (k == InFree ==> FreeCount(l') == |t|) && (k != InFree ==> FreeCount(l') == FreeCount(l))
  {
  }

  lemma TakeFree(h: Heap, l: Lists, r: nat)
    requires Inv(h, l) && List(l, InFree) != []
    ensures var b := List(l, InFree)[0]; var h' := h.(free := At(List(l, InFree), 1)); var l' := Without(l, InFree, 0);
            && b < |h.mem| && h.free == b && h.mem[b].next == At(List(l, InFree), 1) && b < |l.tag|
            && l.tag[b] == InFree
            && Inv(h', l') && KeptExcept(h, l, h', l', r) && BuffersOf(l', r) == BuffersOf(l, r)
            && FreeCount(l') == FreeCount(l) - 1 && l'.tag == l.tag[b := Held]
  {
    hide Inv, KeptExcept, Removed;
    var s := List(l, InFree);
    Elements(h, l, InFree);
    NextElement(h, l, InFree, 0);
    Detach(h, l, InFree, 0);
    KeptByListChange(h, l, h.(free := At(s, 1)), Without(l, InFree, 0), r, InFree, Removed(s, 0), s[0], Held);
    ListChange(l, InFree, Removed(s, 0), r);
    RemovedSize(s, 0);
  }

  lemma RemovedSize(s: seq<nat>, i: nat)
    requires i < |s|
    ensures |Removed(s, i)| == |s| - 1 && (i == 0 ==> Removed(s, i) == s[1..])
  {
  }

  lemma InsertedSize(s: seq<nat>, i: nat, b: nat)
    requires i <= |s|
    ensures |Inserted(s, i, b)| == |s| + 1 && (i == |s| ==> Inserted(s, i, b) == s + [b])
  {
  }

  lemma GiveFree(h: Heap, l: Lists, b: nat, r: nat)
    requires Inv(h, l) && b < |l.tag| && l.tag[b] == Held
    ensures |l.tag| == |h.mem| && h.free == At(List(l, InFree), 0)
    ensures var h' := h.(mem := h.mem[b := FreeBlock(h.free)], free := b); var l' := With(l, InFree, 0, b);
            && Inv(h', l') && KeptExcept(h, l, h', l', r) && BuffersOf(l', r) == BuffersOf(l, r)
            && FreeCount(l') == FreeCount(l) + 1 && l'.tag == l.tag[b := InFree]
  {
    hide Inv, KeptExcept, Inserted;
    Keys(h, l);
    Elements(h, l, InFree);
    var s := l.at[InFree];
    Write(h, l, b, FreeBlock(h.free));
    Attach(h.(mem := h.mem[b := FreeBlock(h.free)]), l, InFree, 0, b);
    KeptByListChange(h, l, h.(mem := h.mem[b := FreeBlock(h.free)], free := b), With(l, InFree, 0, b), r,
                     InFree, Inserted(s, 0, b), b, InFree);
    ListChange(l, InFree, Inserted(s, 0, b), r);
    InsertedSize(s, 0, b);
  }

  lemma FreeListFits(h: Heap, l: Lists)
    requires Inv(h, l)
    ensures FreeCount(l) <= |l.tag| && (FreeCount(l) == |l.tag| ==> forall b: nat | b < |l.tag| :: l.tag[b] == InFree)
  {
    assert Tagged(l.tag, l.at[InFree], InFree);
    hide Inv;
    var s := l.at[InFree];
    DistinctSize(s, |l.tag|);
    forall b: nat | b < |l.tag| && FreeCount(l) == |l.tag| ensures l.tag[b] == InFree {
      if b !in s {
        DistinctSize(s + [b], |l.tag|);
      }
    }
  }

  /** At most n distinct numbers lie below n. */
  lemma DistinctSize(s: seq<nat>, n: nat)
    requires Distinct(s) && forall i | 0 <= i < |s| :: s[i] < n
    ensures |s| <= n
  {
    var elements := set i | 0 <= i < |s| :: s[i];
    ElementsSize(s);
    var below := Below(n);
    assert elements <= below;
    SubsetSize(elements, below);
  }

  ghost function Below(n: nat): (s: set<nat>)
    ensures |s| == n && forall x: nat :: x in s <==> x < n
  {
    if n == 0 then {} else Below(n - 1) + {n - 1}
  }

  lemma SubsetSize(a: set<nat>, b: set<nat>)
    requires a <= b
    ensures |a| <= |b|
  {
    assert b == a + (b - a);
  }

  lemma {:induction false} ElementsSize(s: seq<nat>)
    requires Distinct(s)
    ensures |set i | 0 <= i < |s| :: s[i]| == |s|
  {
    if s != [] {
      var t := s[..|s| - 1];
      ElementsSize(t);
      assert (set i | 0 <= i < |s| :: s[i]) == (set i | 0 <= i < |t| :: t[i]) + {s[|s| - 1]};
    }
  }

  // ---------------------------------------------------------------------------------------------
  // The buffers of one state

  lemma AddBuffer(h: Heap, l: Lists, r: nat, b: nat, data: seq<bv8>)
    requires Inv(h, l) && r < |l.tag| && l.tag[r] == InRx && b < |l.tag| && l.tag[b] == Held && |data| == BLOCK_SIZE
    ensures |h.mem| == |l.tag| && InBuffers(r) in l.at
    ensures var s := l.at[InBuffers(r)];
            var h1 := h.(mem := h.mem[b := BufferBlock(NULL, data)]);
            var h' := Relink(h1, InBuffers(r), s, |s|, b); var l' := With(l, InBuffers(r), |s|, b);
            && Inv(h', l') && KeptExcept(h, l, h', l', r) && BuffersOf(l', r) == s + [b]
            && FreeCount(l') == FreeCount(l) && l'.tag == l.tag[b := InBuffers(r)]
  {
    StateBlock(h, l, r);
    Elements(h, l, InBuffers(r));
    hide Inv, KeptExcept, Inserted, Relink;
    Write(h, l, b, BufferBlock(NULL, data));
    var s := l.at[InBuffers(r)];
    var h1 := h.(mem := h.mem[b := BufferBlock(NULL, data)]);
    Attach(h1, l, InBuffers(r), |s|, b);
    RelinkContents(h1, l.tag, InBuffers(r), s, |s|, b);
    SameThroughWrite(h.mem, Relink(h1, InBuffers(r), s, |s|, b).mem, l.tag, b, BufferBlock(NULL, data));
    RelinkLent(h1, InBuffers(r), s, |s|, b);
    KeptByListChange(h, l, Relink(h1, InBuffers(r), s, |s|, b), With(l, InBuffers(r), |s|, b), r,
                     InBuffers(r), Inserted(s, |s|, b), b, InBuffers(r));
    ListChange(l, InBuffers(r), Inserted(s, |s|, b), r);
    InsertedSize(s, |s|, b);
  }

  lemma RelinkEnd(h: Heap, r: nat, s: seq<nat>, b: Link)
    requires r < |h.mem| && h.mem[r].RxBlock? && forall j | 0 <= j < |s| :: s[j] < |h.mem|
    ensures Relink(h, InBuffers(r), s, |s|, b) ==
            if s == [] then h.(mem := h.mem[r := h.mem[r].(buffers := b)])
            else h.(mem := h.mem[s[|s| - 1] := h.mem[s[|s| - 1]].(next := b)])
  {
  }

  lemma SameThroughWrite(mem: seq<Block>, mem': seq<Block>, tag: seq<Key>, b: nat, v: Block)
    requires b < |mem| == |tag| && tag[b] == Held && SameContents(mem[b := v], mem', tag)
    ensures SameContents(mem, mem', tag) && tag[b := Held] == tag
  {
    forall c: nat | c < |mem| && tag[c] != Held && tag[c] != InFree ensures SameContent(mem[c], mem'[c]) {
      assert SameContent(mem[b := v][c], mem'[c]);
    }
  }

  lemma RelinkLent(h: Heap, k: Key, s: seq<nat>, i: nat, v: Link)
    ensures k != InTransfer ==> Relink(h, k, s, i, v).lent == h.lent
    ensures |Relink(h, k, s, i, v).mem| == |h.mem|
  {
  }

  /** The heap after a new buffer block b was initialised and chained behind the buffers s of state r. */
  function Chained(h: Heap, r: nat, s: seq<nat>, b: nat, data: seq<bv8>): Heap
    requires b < |h.mem| && r < |h.mem| && r != b && h.mem[r].RxBlock? && (s != [] ==> s[|s| - 1] < |h.mem|)
  {
    var mem := h.mem[b := BufferBlock(NULL, data)];
    if s == [] then h.(mem := mem[r := mem[r].(buffers := b)])
    else h.(mem := mem[s[|s| - 1] := mem[s[|s| - 1]].(next := b)])
  }

  lemma ChainBuffer(h: Heap, l: Lists, r: nat, b: nat, data: seq<bv8>)
    requires Inv(h, l) && r < |l.tag| && l.tag[r] == InRx && b < |l.tag| && l.tag[b] == Held && |data| == BLOCK_SIZE
    ensures |h.mem| == |l.tag| && InBuffers(r) in l.at && r < |h.mem| && h.mem[r].RxBlock?
    ensures var s := l.at[InBuffers(r)]; s != [] ==> s[|s| - 1] < |h.mem|
    ensures var s := l.at[InBuffers(r)];
            var h' := Chained(h, r, s, b, data); var l' := With(l, InBuffers(r), |s|, b);
            && Inv(h', l') && KeptExcept(h, l, h', l', r) && BuffersOf(l', r) == s + [b]
            && FreeCount(l') == FreeCount(l) && l'.tag == l.tag[b := InBuffers(r)]
            && SameContents(h.mem, h'.mem, l.tag)
  {
    hide Inv, KeptExcept, With, SameContents, Relink, Typed;
    StateBlock(h, l, r);
    StateIsRxBlock(h, l, r);
    Elements(h, l, InBuffers(r));
    var s := BuffersOf(l, r);
    var h1 := h.(mem := h.mem[b := BufferBlock(NULL, data)]);
    AddBuffer(h, l, r, b, data);
    RelinkEnd(h1, r, s, b);
    RelinkContents(h1, l.tag, InBuffers(r), s, |s|, b);
    SameThroughWrite(h.mem, Relink(h1, InBuffers(r), s, |s|, b).mem, l.tag, b, BufferBlock(NULL, data));
  }

  lemma DropBuffer(h: Heap, l: Lists, r: nat)
    requires Inv(h, l) && r < |l.tag| && l.tag[r] == InRx && BuffersOf(l, r) != []
    ensures |h.mem| == |l.tag| && h.mem[r].RxBlock?
    ensures var s := BuffersOf(l, r);
            var h' := h.(mem := h.mem[r := h.mem[r].(buffers := At(s, 1))]); var l' := Without(l, InBuffers(r), 0);
            && s[0] < |h.mem| && h.mem[r].buffers == s[0] && h.mem[s[0]].next == At(s, 1)
            && Inv(h', l') && KeptExcept(h, l, h', l', r) && BuffersOf(l', r) == s[1..]
            && FreeCount(l') == FreeCount(l) && l.tag[s[0]] == InBuffers(r) && l'.tag == l.tag[s[0] := Held]
  {
    hide Inv, KeptExcept, Removed, SameContents, Typed;
    StateBlock(h, l, r);
    StateIsRxBlock(h, l, r);
    Elements(h, l, InBuffers(r));
    NextElement(h, l, InBuffers(r), 0);
    Detach(h, l, InBuffers(r), 0);
    var s := l.at[InBuffers(r)];
    var h' := h.(mem := h.mem[r := h.mem[r].(buffers := At(s, 1))]);
    RelinkContents(h, l.tag[s[0] := Held], InBuffers(r), s, 0, At(s, 1));
    KeptByListChange(h, l, h', Without(l, InBuffers(r), 0), r, InBuffers(r), Removed(s, 0), s[0], Held);
    ListChange(l, InBuffers(r), Removed(s, 0), r);
    RemovedSize(s, 0);
  }

  /** Writing the fields of state r, or the data of one of its buffers. */
  lemma WriteFields(h: Heap, l: Lists, r: nat, f: Fields)
    requires Inv(h, l) && r < |l.tag| && l.tag[r] == InRx
    requires |f.head| == HEAD_SIZE && f.length < LENGTH_LIMIT && f.transferId < 32
    ensures |h.mem| == |l.tag| && h.mem[r].RxBlock?
    ensures var h' := h.(mem := h.mem[r := h.mem[r].(fields := f)]);
            Inv(h', l) && KeptExcept(h, l, h', l, r)
  {
    hide Inv, KeptExcept;
    StateBlock(h, l, r);
    Write(h, l, r, h.mem[r].(fields := f));
    KeptByWrite(h, l, r, h.mem[r].(fields := f), r);
  }

  lemma KeptByWrite(h: Heap, l: Lists, b: nat, v: Block, r: nat)
    requires |h.mem| == |l.tag| && b < |l.tag| && (b == r || !Foreign(l.tag[b], r))
    ensures KeptExcept(h, l, h.(mem := h.mem[b := v]), l, r)
  {
  }

  lemma WriteData(h: Heap, l: Lists, r: nat, b: nat, data: seq<bv8>)
    requires Inv(h, l) && r < |l.tag| && l.tag[r] == InRx && b < |l.tag| && l.tag[b] == InBuffers(r)
    requires |data| == BLOCK_SIZE
    ensures |h.mem| == |l.tag| && h.mem[b].BufferBlock? && b != r
    ensures var h' := h.(mem := h.mem[b := h.mem[b].(data := data)]);
            Inv(h', l) && KeptExcept(h, l, h', l, r)
  {
    TypeOf(h, l, b);
    hide Inv, KeptExcept;
    Write(h, l, b, h.mem[b].(data := data));
    KeptByWrite(h, l, b, h.mem[b].(data := data), r);
  }

  lemma TypeOf(h: Heap, l: Lists, b: nat)
    requires Inv(h, l) && b < |l.tag|
    ensures |h.mem| == |l.tag| && Typed(h.mem[b], l.tag[b])
  {
  }

  lemma HeldAfterMove(tag: seq<Key>, tag': seq<Key>, b: nat, k: Key)
    requires b < |tag| && tag' == tag[b := k] && (tag[b] == Held <==> k == Held)
    ensures forall l: Lists, l': Lists {:trigger HeldSet(l), HeldSet(l')} | l.tag == tag && l'.tag == tag' ::
            HeldSet(l') == HeldSet(l)
  {
  }

  /** The length of a chain's prefix: the last element has no successor, and only it. */
  lemma LastElement(h: Heap, l: Lists, k: Key, j: nat)
    requires Inv(h, l) && k in l.at && j < |l.at[k]|
    ensures l.at[k][j] < |h.mem| && (h.mem[l.at[k][j]].next == NULL <==> j == |l.at[k]| - 1)
  {
    NextElement(h, l, k, j);
  }

  /** The payload prefix of state r that n bytes of its storage make up. */
  function Prefix(h: Heap, l: Lists, r: nat, n: nat): (p: seq<bv8>)
    ensures |p| == n
  {
    Payload(h.mem, if r < |h.mem| then FieldsOf(h.mem[r]).head else [], BuffersOf(l, r), n)
  }

  /** Writing byte j of the last buffer extends the prefix that ends there. */
  lemma WriteLastBuffer(h: Heap, l: Lists, r: nat, j: nat, x: bv8)
    requires Inv(h, l) && r < |l.tag| && l.tag[r] == InRx && BuffersOf(l, r) != [] && j < BLOCK_SIZE
    ensures var s := BuffersOf(l, r); var b := s[|s| - 1]; var p := HEAD_SIZE + BLOCK_SIZE * (|s| - 1) + j;
            && b < |h.mem| && b != r && h.mem[b].BufferBlock? && |h.mem[b].data| == BLOCK_SIZE
            && var h' := h.(mem := h.mem[b := h.mem[b].(data := h.mem[b].data[j := x])]);
            && Inv(h', l) && KeptExcept(h, l, h', l, r)
            && Prefix(h', l, r, p + 1) == Prefix(h, l, r, p) + [x]
  {
    hide Inv, KeptExcept;
    StateBlock(h, l, r);
    Elements(h, l, InBuffers(r));
    var s := BuffersOf(l, r);
    WriteData(h, l, r, s[|s| - 1], h.mem[s[|s| - 1]].data[j := x]);
    PayloadGrowsInBlock(h.mem, FieldsOf(h.mem[r]).head, s, j, x);
  }

  lemma WriteHead(h: Heap, l: Lists, r: nat, p: nat, x: bv8)
    requires Inv(h, l) && r < |l.tag| && l.tag[r] == InRx && p < HEAD_SIZE
    ensures |h.mem| == |l.tag| && h.mem[r].RxBlock? && |h.mem[r].fields.head| == HEAD_SIZE
    ensures var f := h.mem[r].fields;
            var h' := h.(mem := h.mem[r := h.mem[r].(fields := f.(head := f.head[p := x]))]);
            && Inv(h', l) && KeptExcept(h, l, h', l, r)
            && Prefix(h', l, r, p + 1) == Prefix(h, l, r, p) + [x]
  {
    hide Inv, KeptExcept;
    StateBlock(h, l, r);
    Elements(h, l, InBuffers(r));
    var f := h.mem[r].fields;
    WriteFields(h, l, r, f.(head := f.head[p := x]));
    PayloadGrowsInHead(h.mem, f.head, BuffersOf(l, r), p, x);
    PayloadAcross(h.mem, h.mem[r := h.mem[r].(fields := f.(head := f.head[p := x]))], f.head[p := x], BuffersOf(l, r),
                  p + 1);
  }

  lemma PayloadAcross(mem: seq<Block>, mem': seq<Block>, head: seq<bv8>, s: seq<nat>, n: nat)
    requires forall j | 0 <= j < |s| :: s[j] < |mem| && s[j] < |mem'| && SameContent(mem[s[j]], mem'[s[j]])
    ensures Payload(mem', head, s, n) == Payload(mem, head, s, n)
  {
  }

  /** A new last buffer, or any change outside the state, leaves the prefix within the old storage alone. */
  lemma PrefixKept(h: Heap, l: Lists, h': Heap, l': Lists, r: nat, b: nat, n: nat)
    requires Inv(h, l) && r < |l.tag| && l.tag[r] == InRx && SameContents(h.mem, h'.mem, l.tag)
    requires BuffersOf(l', r) == BuffersOf(l, r) + [b] && n <= HEAD_SIZE + BLOCK_SIZE * |BuffersOf(l, r)|
    ensures Prefix(h', l', r, n) == Prefix(h, l, r, n) && FieldsOf(h'.mem[r]) == FieldsOf(h.mem[r])
  {
    hide Inv;
    StateBlock(h, l, r);
    Elements(h, l, InBuffers(r));
    var s := BuffersOf(l, r);
    assert SameContent(h.mem[r], h'.mem[r]);
    forall j | 0 <= j < |s| ensures SameContent(h.mem[s[j]], h'.mem[s[j]]) {
      assert l.tag[s[j]] == InBuffers(r);
    }
    PayloadKeptByBlock(h.mem, h'.mem, FieldsOf(h.mem[r]).head, s, b, n);
  }

  /** An 8-bit counter. */
  lemma CountsOn(n: nat)
    ensures (n % 0x100 + 1) % 0x100 == (n + 1) % 0x100
  {
  }

  /** How many block boundaries n bytes from position `index` of a block cross. */
  lemma BlocksCrossed(index: nat, n: nat, k: nat, i: nat)
    requires BLOCK_SIZE * k + i == index + n && 1 <= i <= BLOCK_SIZE
    ensures (index + n - 1) / BLOCK_SIZE == k
  {
    Field(index + n - 1, BLOCK_SIZE, k, i - 1);
  }

  lemma CrossesMore(index: nat, n: nat, k: nat, done: nat)
    requires BLOCK_SIZE * k + BLOCK_SIZE == index + done && done < n
    ensures (index + n - 1) / BLOCK_SIZE >= k + 1
  {
    assert (index + n - 1) / BLOCK_SIZE >= (BLOCK_SIZE * k + BLOCK_SIZE) / BLOCK_SIZE;
  }

  /** The blocks to be chained for `count` bytes from byte `index` of the last one on. */
  function MoreBlocks(index: nat, count: nat): nat {
    if count == 0 then 0 else (index + count - 1) / BLOCK_SIZE
  }

  /** The position in the payload of byte `index` of the last one of `blocks` blocks. */
  function Place(blocks: nat, index: nat): nat
    requires blocks > 0
  {
    HEAD_SIZE + BLOCK_SIZE * (blocks - 1) + index
  }

  /** data[start..at] has been written to the state's blocks, from byte `index` of the block that was the last one at
      the beginning, and i is where the last one is full up to now. Nothing else has changed. */
  ghost predicate Filling(h0: Heap, l0: Lists, h: Heap, l: Lists, r: nat, data: seq<bv8>, start: nat, index: nat,
                          block: Link, i: nat, at: nat) {
    && KeptExcept(h0, l0, h, l, r) && HeldSet(l) == HeldSet(l0)
    && r < |h.mem| && r < |h0.mem| && FieldsOf(h.mem[r]) == FieldsOf(h0.mem[r])
    && var s, nb := BuffersOf(l, r), |BuffersOf(l0, r)|;
       && 0 < nb <= |s| && block == s[|s| - 1] && FreeCount(l) + |s| == FreeCount(l0) + nb
       && start <= at <= |data| && i <= BLOCK_SIZE && (start < at ==> 1 <= i || at < |data|)
       && BLOCK_SIZE * (|s| - nb) + i == index + (at - start)
       && var p := HEAD_SIZE + BLOCK_SIZE * (nb - 1) + index;
          Prefix(h, l, r, p + at - start) == Prefix(h0, l0, r, p) + data[start..at]
  }

  lemma FillingStarts(h: Heap, l: Lists, r: nat, data: seq<bv8>, start: nat, index: nat)
    requires |h.mem| == |l.tag| && r < |h.mem| && BuffersOf(l, r) != [] && start <= |data| && index < BLOCK_SIZE
    ensures Filling(h, l, h, l, r, data, start, index, BuffersOf(l, r)[|BuffersOf(l, r)| - 1], index, start)
  {
    hide KeptExcept, Prefix, BuffersOf, FieldsOf, HeldSet, FreeCount;
    KeptReflexive(h, l, r);
  }

  lemma FillingBlock(h0: Heap, l0: Lists, h: Heap, l: Lists, r: nat, data: seq<bv8>, start: nat, index: nat,
                     block: Link, i: nat, at: nat)
    requires Filling(h0, l0, h, l, r, data, start, index, block, i, at)
    ensures BuffersOf(l, r) != [] && block == BuffersOf(l, r)[|BuffersOf(l, r)| - 1]
  {
    hide KeptExcept, Prefix, BuffersOf, FieldsOf, HeldSet, FreeCount;
  }

  /** More bytes in the last block. */
  lemma FillingMore(h0: Heap, l0: Lists, h: Heap, l: Lists, h': Heap, r: nat, data: seq<bv8>, start: nat, index: nat,
                    block: Link, i: nat, at: nat, i': nat, at': nat)
    requires Filling(h0, l0, h, l, r, data, start, index, block, i, at)
    requires KeptExcept(h, l, h', l, r) && r < |h'.mem| && FieldsOf(h'.mem[r]) == FieldsOf(h.mem[r])
    requires at < at' <= |data| && i' == i + (at' - at) <= BLOCK_SIZE
    requires var p := HEAD_SIZE + BLOCK_SIZE * (|BuffersOf(l, r)| - 1);
             Prefix(h', l, r, p + i') == Prefix(h, l, r, p + i) + data[at..at']
    ensures Filling(h0, l0, h', l, r, data, start, index, block, i', at')
  {
    hide KeptExcept, Prefix, BuffersOf, FieldsOf, HeldSet, FreeCount;
    KeptTransitive(h0, l0, h, l, h', l, r);
    SlicesJoin(Prefix(h0, l0, r, HEAD_SIZE + BLOCK_SIZE * (|BuffersOf(l0, r)| - 1) + index), data, start, at, at');
  }

  lemma SlicesJoin(before: seq<bv8>, data: seq<bv8>, a: nat, b: nat, c: nat)
    requires a <= b <= c <= |data|
    ensures (before + data[a..b]) + data[b..c] == before + data[a..c]
  {
  }

  /** Another block behind a full one. */
  lemma FillingNext(h0: Heap, l0: Lists, h: Heap, l: Lists, h': Heap, l': Lists, r: nat, data: seq<bv8>, start: nat,
                    index: nat,
                    block: Link, at: nat, next: nat)
    requires Filling(h0, l0, h, l, r, data, start, index, block, BLOCK_SIZE, at) && at < |data|
    requires KeptExcept(h, l, h', l', r) && r < |h'.mem| && FieldsOf(h'.mem[r]) == FieldsOf(h.mem[r])
    requires HeldSet(l') == HeldSet(l) && BuffersOf(l', r) == BuffersOf(l, r) + [next]
    requires FreeCount(l') + 1 == FreeCount(l)
    requires forall n: nat | n <= HEAD_SIZE + BLOCK_SIZE * |BuffersOf(l, r)| ::
            Prefix(h', l', r, n) == Prefix(h, l, r, n)
    ensures Filling(h0, l0, h', l', r, data, start, index, next, 0, at)
  {
    hide KeptExcept, Prefix, BuffersOf, FieldsOf, HeldSet, FreeCount;
    KeptTransitive(h0, l0, h, l, h', l', r);
  }

  /** If there is no other block, there were not enough in the beginning. */
  lemma FillingFails(h0: Heap, l0: Lists, h: Heap, l: Lists, h': Heap, l': Lists, r: nat, data: seq<bv8>, start: nat,
                     index: nat,
                     block: Link, at: nat)
    requires Filling(h0, l0, h, l, r, data, start, index, block, BLOCK_SIZE, at) && at < |data|
    requires KeptExcept(h, l, h', l', r) && r < |h'.mem| && FieldsOf(h'.mem[r]) == FieldsOf(h.mem[r])
    requires HeldSet(l') == HeldSet(l) && BuffersOf(l', r) == BuffersOf(l, r) && FreeCount(l') == FreeCount(l) == 0
    ensures KeptExcept(h0, l0, h', l', r) && HeldSet(l') == HeldSet(l0) && r < |h0.mem|
    ensures FieldsOf(h'.mem[r]) == FieldsOf(h0.mem[r])
    ensures FreeCount(l') + |BuffersOf(l', r)| == FreeCount(l0) + |BuffersOf(l0, r)|
    ensures start < |data| && MoreBlocks(index, |data| - start) > FreeCount(l0)
  {
    hide KeptExcept, Prefix, BuffersOf, FieldsOf, HeldSet, FreeCount;
    KeptTransitive(h0, l0, h, l, h', l', r);
    CrossesMore(index, |data| - start, |BuffersOf(l, r)| - |BuffersOf(l0, r)|, at - start);
  }

  lemma FillingDone(h0: Heap, l0: Lists, h: Heap, l: Lists, r: nat, data: seq<bv8>, start: nat, index: nat, block: Link,
                    i: nat)
    requires Filling(h0, l0, h, l, r, data, start, index, block, i, |data|)
    ensures KeptExcept(h0, l0, h, l, r) && HeldSet(l) == HeldSet(l0)
    ensures r < |h.mem| && r < |h0.mem| && FieldsOf(h.mem[r]) == FieldsOf(h0.mem[r])
    ensures FreeCount(l) + |BuffersOf(l, r)| == FreeCount(l0) + |BuffersOf(l0, r)|
    ensures start <= |data| && |BuffersOf(l0, r)| > 0
    ensures var more := MoreBlocks(index, |data| - start);
            more <= FreeCount(l0) && (index < BLOCK_SIZE ==> |BuffersOf(l, r)| == |BuffersOf(l0, r)| + more)
    ensures var p := Place(|BuffersOf(l0, r)|, index);
            Prefix(h, l, r, p + |data| - start) == Prefix(h0, l0, r, p) + data[start..]
  {
    hide KeptExcept, Prefix, BuffersOf, FieldsOf, HeldSet, FreeCount;
    assert data[start..|data|] == data[start..];
    if start < |data| {
      BlocksCrossed(index, |data| - start, |BuffersOf(l, r)| - |BuffersOf(l0, r)|, i);
    }
  }

  /** Filling blocks from the write position of a healthy state ends with as many blocks as BlocksAfter says. */
  lemma BlocksFilled(length: nat, count: nat, blocks: nat, index: nat, done: nat)
    requires 1 <= blocks && index < BLOCK_SIZE && done <= count
    requires length + done == HEAD_SIZE + BLOCK_SIZE * (blocks - 1) + index
    requires done == (if length < HEAD_SIZE then HEAD_SIZE - length else 0)
    requires length < HEAD_SIZE ==> done < count
    ensures BlocksAfter(length, count) ==
            blocks + if done == count then 0 else (index + (count - done) - 1) / BLOCK_SIZE
  {
    Field(BLOCK_SIZE * (blocks - 1) + index, BLOCK_SIZE, blocks - 1, index);
    var n := count - done;
    if n > 0 {
      var q, m := (index + n - 1) / BLOCK_SIZE, (index + n - 1) % BLOCK_SIZE;
      Field(BLOCK_SIZE * (blocks - 1) + index + n + BLOCK_SIZE - 1, BLOCK_SIZE, blocks + q, m);
    } else {
      assert (BLOCK_SIZE * (blocks - 1) + index + BLOCK_SIZE - 1) / BLOCK_SIZE <= blocks;
    }
  }

  /** Filling blocks behind a full head appends the rest of the data, if there are as many blocks as BlocksAfter
      says. */
  lemma FilledBehindHead(h0: Heap, l0: Lists, h1: Heap, l1: Lists, h2: Heap, l2: Lists, r: nat, n: nat, data: seq<bv8>,
                         done: nat,
                         index: nat, ok: bool)
    requires done <= |data| && index < BLOCK_SIZE && BuffersOf(l1, r) != []
    requires done == (if n < HEAD_SIZE then HEAD_SIZE - n else 0) && (n < HEAD_SIZE ==> done < |data|)
    requires FreeCount(l1) + |BuffersOf(l1, r)| == FreeCount(l0) + |BuffersOf(l0, r)|
    requires var p := Place(|BuffersOf(l1, r)|, index);
             && p == Max(n, HEAD_SIZE) && Prefix(h1, l1, r, p) == Prefix(h0, l0, r, p)
             && (ok ==> Prefix(h2, l2, r, p + |data| - done) == Prefix(h1, l1, r, p) + data[done..])
    requires var more := MoreBlocks(index, |data| - done);
             (ok <==> more <= FreeCount(l1)) && (ok ==> |BuffersOf(l2, r)| == |BuffersOf(l1, r)| + more)
    ensures ok <==> BlocksAfter(n, |data|) <= |BuffersOf(l0, r)| + FreeCount(l0)
    ensures ok ==> |BuffersOf(l2, r)| == BlocksAfter(n, |data|)
                   && Prefix(h2, l2, r, n + |data|) == Prefix(h0, l0, r, n + done) + data[done..]
  {
    hide Prefix, BuffersOf, FreeCount, BlocksAfter;
    BlocksFilled(n, |data|, |BuffersOf(l1, r)|, index, done);
  }

  /** The position in its block of byte n of a payload, in the 32-bit unsigned arithmetic of the size type. */
  function StartIndex(n: nat): (j: nat)
    ensures j < BLOCK_SIZE
  {
    ((n - HEAD_SIZE) % 0x1_0000_0000) % BLOCK_SIZE
  }

  /** An 8-bit number. */
  function NeededBlocks(n: nat, count: nat): nat {
    (((n + count - HEAD_SIZE) % 0x1_0000_0000) / BLOCK_SIZE + 1) % 0x100
  }

  /** Where the next byte of a healthy state with buffers goes. */
  lemma WritePosition(length: nat, blocks: nat, count: nat)
    requires BlocksOk(length, blocks) && 1 <= blocks && count < BLOCK_SIZE && length < LENGTH_LIMIT
    ensures Max(length, HEAD_SIZE) ==
            if NeededBlocks(length, count) > blocks % 0x100 && StartIndex(length) == 0
            then HEAD_SIZE + BLOCK_SIZE * blocks
            else HEAD_SIZE + BLOCK_SIZE * (blocks - 1) + StartIndex(length)
  {
    BlocksHeld(length, blocks);
    var n := length - HEAD_SIZE;
    var q, index := n / BLOCK_SIZE, n % BLOCK_SIZE;
    Field(n, 0x1_0000_0000, 0, n);
    Field(n + count, 0x1_0000_0000, 0, n + count);
    if index == 0 {
      Field(n + count, BLOCK_SIZE, q, count);
      assert NeededBlocks(length, count) == (q + 1) % 0x100;
    }
  }

  lemma BlocksHeld(length: nat, blocks: nat)
    requires BlocksOk(length, blocks) && 1 <= blocks && length < LENGTH_LIMIT
    ensures length >= HEAD_SIZE && blocks <= 37
    ensures var q := (length - HEAD_SIZE) / BLOCK_SIZE;
            if (length - HEAD_SIZE) % BLOCK_SIZE == 0 then blocks == q || blocks == q + 1 else blocks == q + 1
  {
    if length > HEAD_SIZE {
      var n := length - HEAD_SIZE;
      var q, index := n / BLOCK_SIZE, n % BLOCK_SIZE;
      if index == 0 {
        Field(n + BLOCK_SIZE - 1, BLOCK_SIZE, q, BLOCK_SIZE - 1);
      } else {
        Field(n + BLOCK_SIZE - 1, BLOCK_SIZE, q + 1, index - 1);
      }
    }
  }

  lemma OneBlockMore(length: nat, count: nat, held: nat)
    requires Max(length, HEAD_SIZE) == HEAD_SIZE + BLOCK_SIZE * held
    requires !(length < HEAD_SIZE && length + count <= HEAD_SIZE)
    ensures BlocksAfter(length, count) >= held + 1
  {
    Field(BLOCK_SIZE * held, BLOCK_SIZE, held, 0);
  }

  lemma NoBlocksYet(length: nat, held: nat)
    requires BlocksOk(length, held) && (length < HEAD_SIZE || held == 0)
    ensures held == 0 && length <= HEAD_SIZE && Max(length, HEAD_SIZE) == HEAD_SIZE
  {
  }

  lemma PrefixUnchanged(h: Heap, l: Lists, h': Heap, r: nat)
    requires Inv(h, l) && r < |l.tag| && l.tag[r] == InRx && SameContents(h.mem, h'.mem, l.tag)
    ensures forall n: nat :: Prefix(h', l, r, n) == Prefix(h, l, r, n)
  {
    hide Inv;
    StateBlock(h, l, r);
    Elements(h, l, InBuffers(r));
    var s := BuffersOf(l, r);
    assert SameContent(h.mem[r], h'.mem[r]);
    forall n: nat ensures Prefix(h', l, r, n) == Prefix(h, l, r, n) {
      forall j | 0 <= j < |s| ensures SameContent(h.mem[s[j]], h'.mem[s[j]]) {
        assert l.tag[s[j]] == InBuffers(r);
      }
      PayloadAcross(h.mem, h'.mem, FieldsOf(h.mem[r]).head, s, n);
    }
  }

  lemma LengthOf(h: Heap, l: Lists, r: nat)
    requires Inv(h, l) && r < |l.tag| && l.tag[r] == InRx
    ensures r < |h.mem| && h.mem[r].RxBlock? && FieldsOf(h.mem[r]) == h.mem[r].fields
    ensures h.mem[r].fields.length < LENGTH_LIMIT
  {
    StateBlock(h, l, r);
  }

  lemma FieldsKept(h: Heap, l: Lists, h': Heap, r: nat)
    requires r < |l.tag| && l.tag[r] == InRx && SameContents(h.mem, h'.mem, l.tag)
    ensures r < |h.mem| == |h'.mem| && FieldsOf(h'.mem[r]) == FieldsOf(h.mem[r])
  {
    assert SameContent(h.mem[r], h'.mem[r]);
  }

  lemma Appended(h: Heap, l: Lists, h': Heap, l': Lists, r: nat, b: nat)
    requires Inv(h, l) && r < |l.tag| && l.tag[r] == InRx && b < |l.tag| && l.tag[b] == InFree
    requires SameContents(h.mem, h'.mem, l.tag[b := Held]) && BuffersOf(l', r) == BuffersOf(l, r) + [b]
    ensures r < |h.mem| == |h'.mem| && FieldsOf(h'.mem[r]) == FieldsOf(h.mem[r])
    ensures forall n: nat | n <= HEAD_SIZE + BLOCK_SIZE * |BuffersOf(l, r)| ::
            Prefix(h', l', r, n) == Prefix(h, l, r, n)
  {
    hide Inv, SameContents, Prefix, BuffersOf, FieldsOf;
    Keys(h, l);
    SameFromHeld(h'.mem, h.mem, l.tag, b);
    FieldsKept(h, l, h', r);
    forall n: nat | n <= HEAD_SIZE + BLOCK_SIZE * |BuffersOf(l, r)| ensures Prefix(h', l', r, n) == Prefix(h, l, r, n) {
      PrefixKept(h, l, h', l', r, b, n);
    }
  }

  // ---------------------------------------------------------------------------------------------
  // Lending the buffers of a state to the application

  lemma LendKept(h: Heap, l: Lists, r: nat)
    requires Inv(h, l) && r < |l.tag| && l.tag[r] == InRx && List(l, InTransfer) == []
    ensures r < |h.mem| && h.mem[r].RxBlock? && InBuffers(r) in l.at && h.mem[r].buffers == At(BuffersOf(l, r), 0)
    ensures var h' := h.(mem := h.mem[r := h.mem[r].(buffers := NULL)], lent := h.mem[r].buffers); var l' := Lent(l, r);
            && Inv(h', l') && KeptRest(h, l, h', l', r) && BuffersOf(l', r) == []
            && List(l', InTransfer) == BuffersOf(l, r) && List(l', InTx) == List(l, InTx)
            && FreeCount(l') == FreeCount(l) && HeldSet(l') == HeldSet(l) && r < |l'.tag| && l'.tag[r] == InRx
  {
    hide Inv, KeptRest, Typed;
    StateBlock(h, l, r);
    StateIsRxBlock(h, l, r);
    Keys(h, l);
    Lend(h, l, r);
    var h' := h.(mem := h.mem[r := h.mem[r].(buffers := NULL)], lent := h.mem[r].buffers);
    assert SetHead(h.(lent := h.mem[r].buffers), InBuffers(r), NULL) == h';
    LendRest(h, l, h', r);
    PassedHeld(l.tag, InBuffers(r), InTransfer);
  }

  lemma LendRest(h: Heap, l: Lists, h': Heap, r: nat)
    requires |h.mem| == |l.tag| && r < |h.mem| && InBuffers(r) in l.at && InTx in l.at && InRx in l.at
    requires |h'.mem| == |h.mem| && h'.mem == h.mem[r := h'.mem[r]]
    ensures KeptRest(h, l, h', Lent(l, r), r) && List(Lent(l, r), InTx) == List(l, InTx)
  {
  }

  lemma PassedHeld(tag: seq<Key>, from: Key, to: Key)
    requires from != Held && to != Held
    ensures forall l: Lists, l': Lists {:trigger HeldSet(l), HeldSet(l')} |
              l.tag == tag && l'.tag == Passed(tag, from, to) :: HeldSet(l') == HeldSet(l)
  {
  }

  lemma DropLent(h: Heap, l: Lists, r: nat)
    requires Inv(h, l) && List(l, InTransfer) != [] && r < |l.tag| && l.tag[r] == InRx
    ensures var s := List(l, InTransfer); var h' := h.(lent := At(s, 1)); var l' := Without(l, InTransfer, 0);
            && |h.mem| == |l.tag| && s[0] < |h.mem| && h.lent == s[0] && h.mem[s[0]].next == At(s, 1)
            && Inv(h', l') && KeptRest(h, l, h', l', r) && BuffersOf(l', r) == BuffersOf(l, r)
            && List(l', InTransfer) == s[1..] && FreeCount(l') == FreeCount(l) && List(l', InTx) == List(l, InTx)
            && l.tag[s[0]] == InTransfer && l'.tag == l.tag[s[0] := Held]
  {
    hide Inv, KeptRest, Removed;
    Keys(h, l);
    var s := List(l, InTransfer);
    Elements(h, l, InTransfer);
    NextElement(h, l, InTransfer, 0);
    Detach(h, l, InTransfer, 0);
    RemovedSize(s, 0);
    DropLentRest(h, l, h.(lent := At(s, 1)), r);
  }

  lemma DropLentRest(h: Heap, l: Lists, h': Heap, r: nat)
    requires |h.mem| == |l.tag| && h'.mem == h.mem && InTransfer in l.at && l.at[InTransfer] != []
    requires l.at[InTransfer][0] < |l.tag| && l.tag[l.at[InTransfer][0]] == InTransfer
    ensures KeptRest(h, l, h', Without(l, InTransfer, 0), r)
    ensures List(Without(l, InTransfer, 0), InTx) == List(l, InTx)
  {
  }

  /** A reception state in terms of its block's fields. */
  lemma StateIs(h: Heap, l: Lists, r: nat)
    requires r < |h.mem|
    ensures var f := FieldsOf(h.mem[r]);
            StateAt(h, l, r) == RxState(f.desc, f.timestamp, Prefix(h, l, r, f.length), |BuffersOf(l, r)|,
                                        f.payloadCrc, f.calculatedCrc, f.transferId, f.toggle)
  {
  }

  lemma BlocksAre(h: Heap, l: Lists, r: nat)
    ensures StateAt(h, l, r).blocks == |BuffersOf(l, r)|
  {
  }

  lemma SamePrefix(h: Heap, l: Lists, h': Heap, r: nat)
    requires Inv(h, l) && r < |l.tag| && l.tag[r] == InRx && |h'.mem| == |h.mem|
    requires r < |h.mem| ==> h'.mem == h.mem[r := h'.mem[r]] && FieldsOf(h'.mem[r]).head == FieldsOf(h.mem[r]).head
    ensures forall n: nat :: Prefix(h', l, r, n) == Prefix(h, l, r, n)
  {
    hide Inv;
    StateBlock(h, l, r);
    Elements(h, l, InBuffers(r));
    forall n: nat ensures Prefix(h', l, r, n) == Prefix(h, l, r, n) {
      PayloadAcross(h.mem, h'.mem, FieldsOf(h.mem[r]).head, BuffersOf(l, r), n);
    }
  }

  lemma EmptyPrefix(h: Heap, l: Lists, r: nat)
    ensures Prefix(h, l, r, 0) == []
  {
  }

  lemma PiecesJoin(s: seq<bv8>, k: nat)
    requires k <= |s|
    ensures forall p: seq<bv8> {:trigger p + s[..k]} :: p + s[..k] + s[k..] == p + s
  {
    forall p: seq<bv8> ensures p + s[..k] + s[k..] == p + s {
      assert s == s[..k] + s[k..];
    }
  }

  lemma HeldAfterTwoMoves(tag: seq<Key>, tag': seq<Key>, b: nat)
    requires b < |tag| && tag' == tag[b := Held][b := InFree] && tag[b] != Held
    ensures forall l: Lists, l': Lists {:trigger HeldSet(l), HeldSet(l')} | l.tag == tag && l'.tag == tag' ::
            HeldSet(l') == HeldSet(l)
  {
  }

  lemma GatheredSingle(mem: seq<Block>, body: seq<bv8>)
    ensures Gathered(mem, body, [], None, |body|) == body && WellScattered(body, 0, None, |body|)
  {
  }

  lemma StoredSize(f: Frame)
    requires f.data != []
    ensures |Stored(f)| < 8
  {
  }

  lemma HealthyBlocks(s: RxState)
    requires Healthy(s)
    ensures BlocksOk(|s.payload|, s.blocks) && (s.blocks > 0 ==> |s.payload| >= HEAD_SIZE)
  {
  }

  lemma TransferIdFits(tail: bv8)
    ensures TransferIdOf(tail) < 32
  {
  }

  lemma NoneLent(h: Heap, l: Lists)
    requires Inv(h, l)
    ensures h.lent == NULL <==> List(l, InTransfer) == []
  {
    Elements(h, l, InTransfer);
  }

  /** Where a healthy state's payload ends. */
  lemma EndPosition(n: nat, blocks: nat)
    requires BlocksOk(n, blocks)
    ensures n <= HEAD_SIZE + BLOCK_SIZE * blocks
    ensures blocks > 0 ==> HEAD_SIZE + BLOCK_SIZE * (blocks - 1) <= n
  {
    if n > HEAD_SIZE {
      var m := n - HEAD_SIZE;
      var q, index := m / BLOCK_SIZE, m % BLOCK_SIZE;
      if index == 0 {
        Field(m + BLOCK_SIZE - 1, BLOCK_SIZE, q, BLOCK_SIZE - 1);
      } else {
        Field(m + BLOCK_SIZE - 1, BLOCK_SIZE, q + 1, index - 1);
      }
    }
  }

  lemma PrefixIs(h: Heap, l: Lists, r: nat, n: nat)
    requires r < |h.mem|
    ensures Prefix(h, l, r, n) == Payload(h.mem, FieldsOf(h.mem[r]).head, BuffersOf(l, r), n)
  {
  }

  /** Changes to the state block itself do not reach the bytes in its buffers. */
  lemma GatheredKept(h: Heap, l: Lists, mem: seq<Block>, r: nat, head: seq<bv8>, tail: Option<seq<bv8>>, n: nat)
    requires Inv(h, l) && r < |l.tag| && l.tag[r] == InRx && r < |h.mem| == |mem| && mem == h.mem[r := mem[r]]
    ensures Gathered(mem, head, BuffersOf(l, r), tail, n) == Gathered(h.mem, head, BuffersOf(l, r), tail, n)
  {
    hide Inv;
    StateBlock(h, l, r);
    Elements(h, l, InBuffers(r));
    GatheredSame(h.mem, mem, head, BuffersOf(l, r), tail, n);
  }

  lemma GatheredSame(mem: seq<Block>, mem': seq<Block>, head: seq<bv8>, s: seq<nat>, tail: Option<seq<bv8>>, n: nat)
    requires forall j | 0 <= j < |s| :: s[j] < |mem| && s[j] < |mem'| && SameContent(mem[s[j]], mem'[s[j]])
    ensures Gathered(mem', head, s, tail, n) == Gathered(mem, head, s, tail, n)
  {
  }

  lemma LentKept(h: Heap, l: Lists, h': Heap, r: nat, head: seq<bv8>, tail: Option<seq<bv8>>, n: nat)
    requires Inv(h, l) && KeptExcept(h, l, h', l, r) && r < |l.tag| && l.tag[r] == InRx
    ensures Gathered(h'.mem, head, List(l, InTransfer), tail, n) == Gathered(h.mem, head, List(l, InTransfer), tail, n)
  {
    Keys(h, l);
    Elements(h, l, InTransfer);
    hide Inv;
    var s := List(l, InTransfer);
    forall j | 0 <= j < |s| ensures s[j] < |h.mem| && s[j] < |h'.mem| && SameContent(h.mem[s[j]], h'.mem[s[j]]) {
      assert l.tag[s[j]] == InTransfer;
    }
    GatheredSame(h.mem, h'.mem, head, s, tail, n);
  }

  // ---------------------------------------------------------------------------------------------
  // The list of states

  /** Taking a block off the free list changes no content. */
  lemma TakeFreeContents(h: Heap, l: Lists, h': Heap)
    requires InFree in l.at && l.at[InFree] != [] && h'.mem == h.mem
    ensures var l' := Without(l, InFree, 0);
            RxOf(h', l') == RxOf(h, l) && TxOf(h', l') == TxOf(h, l) && List(l', InTransfer) == List(l, InTransfer)
            && List(l', InRx) == List(l, InRx) && List(l', InTx) == List(l, InTx)
  {
    var l' := Without(l, InFree, 0);
    forall q: nat ensures BuffersOf(l', q) == BuffersOf(l, q) {
    }
  }

  /** A new state at the front of the list. */
  lemma AddState(h: Heap, l: Lists, b: nat, f: Fields)
    requires Inv(h, l) && b < |l.tag| && l.tag[b] == Held && |f.head| == HEAD_SIZE && f.length == 0 && f.transferId < 32
    ensures |l.tag| == |h.mem| && InRx in l.at
    ensures var h' := h.(mem := h.mem[b := RxBlock(h.rx, NULL, f)], rx := b); var l' := With(l, InRx, 0, b);
            && Inv(h', l') && FreeCount(l') == FreeCount(l) && List(l', InTransfer) == List(l, InTransfer)
            && List(l', InRx) == [b] + List(l, InRx) && l'.tag == l.tag[b := InRx] && BuffersOf(l', b) == []
            && RxOf(h', l') == [StateAt(h', l', b)] + RxOf(h, l) && TxOf(h', l') == TxOf(h, l)
  {
    hide *;
    Keys(h, l);
    Elements(h, l, InRx);
    Elements(h, l, InTx);
    var h' := h.(mem := h.mem[b := RxBlock(h.rx, NULL, f)], rx := b);
    HeadOfStates(h);
    AttachState(h, l, b, f);
    WithState(h, l, h', b);
    forall j | 0 <= j < |l.at[InRx]|
           ensures StateAt(h', With(l, InRx, 0, b), l.at[InRx][j]) == StateAt(h, l, l.at[InRx][j]) {
      OtherState(h, l, b, RxBlock(h.rx, NULL, f), With(l, InRx, 0, b), h', l.at[InRx][j]);
    }
    StatesWith(h, l, h', b);
  }

  lemma HeadOfStates(h: Heap)
    ensures Head(h, InRx) == h.rx
  {
  }

  lemma AttachState(h: Heap, l: Lists, b: nat, f: Fields)
    requires Inv(h, l) && b < |l.tag| == |h.mem| && l.tag[b] == Held && InRx in l.at && h.rx == At(l.at[InRx], 0)
    requires |f.head| == HEAD_SIZE && f.length == 0 && f.transferId < 32
    ensures Inv(h.(mem := h.mem[b := RxBlock(h.rx, NULL, f)], rx := b), With(l, InRx, 0, b))
  {
    hide Inv, With;
    Write(h, l, b, RxBlock(h.rx, NULL, f));
    Attach(h.(mem := h.mem[b := RxBlock(h.rx, NULL, f)]), l, InRx, 0, b);
  }

  lemma WithState(h: Heap, l: Lists, h': Heap, b: nat)
    requires InRx in l.at && b < |l.tag| == |h.mem| && l.tag[b] == Held && |h'.mem| == |h.mem|
    requires h'.mem == h.mem[b := h'.mem[b]]
    requires InTx in l.at && InFree in l.at && InTransfer in l.at
    requires forall j | 0 <= j < |l.at[InTx]| :: l.at[InTx][j] < |h.mem| && l.tag[l.at[InTx][j]] == InTx
    requires forall j | 0 <= j < |l.at[InRx]| :: l.at[InRx][j] < |h.mem| && l.tag[l.at[InRx][j]] == InRx
    ensures var l' := With(l, InRx, 0, b);
            && FreeCount(l') == FreeCount(l) && List(l', InTransfer) == List(l, InTransfer)
            && List(l', InRx) == [b] + List(l, InRx) && l'.tag == l.tag[b := InRx] && BuffersOf(l', b) == []
            && TxOf(h', l') == TxOf(h, l)
            && forall j | 0 <= j < |l.at[InRx]| :: BuffersOf(l', l.at[InRx][j]) == BuffersOf(l, l.at[InRx][j])
  {
    hide Inserted;
    InsertedFront(l.at[InRx], b);
  }

  lemma StatesWith(h: Heap, l: Lists, h': Heap, b: nat)
    requires InRx in l.at
    requires var l' := With(l, InRx, 0, b);
             && List(l', InRx) == [b] + List(l, InRx)
             && forall j | 0 <= j < |l.at[InRx]| :: StateAt(h', l', l.at[InRx][j]) == StateAt(h, l, l.at[InRx][j])
    ensures var l' := With(l, InRx, 0, b); RxOf(h', l') == [StateAt(h', l', b)] + RxOf(h, l)
  {
    hide StateAt, With;
  }

  lemma InsertedFront(s: seq<nat>, b: nat)
    ensures Inserted(s, 0, b) == [b] + s
  {
  }

  lemma OtherState(h: Heap, l: Lists, b: nat, v: Block, l': Lists, h': Heap, q: nat)
    requires Inv(h, l) && b < |l.tag| == |h.mem| && l.tag[b] == Held && q < |l.tag| && l.tag[q] == InRx
    requires |h'.mem| == |h.mem| && h'.mem == h.mem[b := v] && BuffersOf(l', q) == BuffersOf(l, q)
    ensures StateAt(h', l', q) == StateAt(h, l, q)
  {
    StateBlock(h, l, q);
    Elements(h, l, InBuffers(q));
    hide Inv;
    var s := BuffersOf(l, q);
    forall j | 0 <= j < |s| ensures s[j] < |h.mem| && SameContent(h.mem[s[j]], h'.mem[s[j]]) {
      assert l.tag[s[j]] == InBuffers(q);
    }
    PayloadAcross(h.mem, h'.mem, FieldsOf(h.mem[q]).head, s, FieldsOf(h.mem[q]).length);
    EqualStates(h, l, h', l', q);
  }

  lemma RxLength(h: Heap, l: Lists)
    ensures |RxOf(h, l)| == |List(l, InRx)|
            && forall i | 0 <= i < |List(l, InRx)| :: RxOf(h, l)[i] == StateAt(h, l, List(l, InRx)[i])
  {
  }

  lemma IsState(h: Heap, l: Lists, i: nat)
    requires Inv(h, l) && i < |List(l, InRx)|
    ensures List(l, InRx)[i] < |l.tag| == |h.mem| && l.tag[List(l, InRx)[i]] == InRx
  {
    Elements(h, l, InRx);
  }

  lemma FoundInList(h: Heap, l: Lists, i: nat)
    requires Inv(h, l)
    ensures i < |List(l, InRx)| ==> List(l, InRx)[i] >= 0
  {
  }
}

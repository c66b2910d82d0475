/** The pool steps on the TX queue and on the list of reception states. */
module QueueSteps {
  import opened CanFrames
  import opened Pool
  import opened Reception
  import opened Contents
  import opened Steps

  /** Reception states do not change when blocks change only in their links, or were free or held. */
  lemma SameRx(h: Heap, l: Lists, h': Heap, l': Lists)
    requires Inv(h, l) && SameContents(h.mem, h'.mem, l.tag) && List(l', InRx) == List(l, InRx)
    requires forall q: nat :: BuffersOf(l', q) == BuffersOf(l, q)
    ensures RxOf(h', l') == RxOf(h, l)
  {
    hide *;
    ListOfStates(h, l);
    Elements(h, l, InRx);
    var s := l.at[InRx];
    forall j | 0 <= j < |s| ensures StateAt(h', l', s[j]) == StateAt(h, l, s[j]) {
      SameState(h, l, h', l', s[j]);
    }
    RxEqual(h, l, h', l');
  }

  lemma SameState(h: Heap, l: Lists, h': Heap, l': Lists, q: nat)
    requires Inv(h, l) && SameContents(h.mem, h'.mem, l.tag) && BuffersOf(l', q) == BuffersOf(l, q)
    requires q < |l.tag| && l.tag[q] == InRx
    ensures StateAt(h', l', q) == StateAt(h, l, q)
  {
    hide Inv, BuffersOf, Prefix, StateAt, SameContents;
    LengthOf(h, l, q);
    FieldsKept(h, l, h', q);
    PrefixUnchanged(h, l, h', q);
    PrefixSame(h', l', l, q);
    StateIs(h, l, q);
    StateIs(h', l', q);
  }

  lemma PrefixSame(h: Heap, l: Lists, l': Lists, r: nat)
    requires BuffersOf(l', r) == BuffersOf(l, r)
    ensures forall n: nat :: Prefix(h, l', r, n) == Prefix(h, l, r, n)
  {
  }

  lemma RxEqual(h: Heap, l: Lists, h': Heap, l': Lists)
    requires List(l', InRx) == List(l, InRx)
    requires forall j | 0 <= j < |List(l, InRx)| :: StateAt(h', l', List(l, InRx)[j]) == StateAt(h, l, List(l, InRx)[j])
    ensures RxOf(h', l') == RxOf(h, l)
  {
    hide StateAt;
  }

  // ---------------------------------------------------------------------------------------------
  // TX queue

  /** The heap after item b was linked into the queue at position i. */
  function Queued(h: Heap, s: seq<nat>, i: nat, b: nat, frame: Frame): Heap
    requires i <= |s| && b < |h.mem| && (i > 0 ==> s[i - 1] < |h.mem|)
  {
    var mem := h.mem[b := TxItem(At(s, i), frame)];
    if i == 0 then h.(mem := mem, tx := b) else h.(mem := mem[s[i - 1] := mem[s[i - 1]].(next := b)])
  }

  /** What adding a frame at position i of the queue does to the contents of the pool. */
  ghost predicate Enqueued(h: Heap, l: Lists, h': Heap, l': Lists, i: nat, b: nat, frame: Frame) {
    && i <= |TxOf(h, l)| && TxOf(h', l') == TxOf(h, l)[..i] + [frame] + TxOf(h, l)[i..]
    && RxOf(h', l') == RxOf(h, l) && FreeCount(l') == FreeCount(l) && List(l', InTransfer) == List(l, InTransfer)
    && b < |l.tag| && l'.tag == l.tag[b := InTx]
  }

  lemma AddItem(h: Heap, l: Lists, i: nat, b: nat, frame: Frame)
    requires Inv(h, l) && b < |l.tag| && l.tag[b] == Held && i <= |List(l, InTx)|
    ensures InTx in l.at && |l.tag| == |h.mem| && (i > 0 ==> l.at[InTx][i - 1] < |h.mem|)
    ensures var h' := Queued(h, l.at[InTx], i, b, frame); var l' := With(l, InTx, i, b);
            Inv(h', l') && Enqueued(h, l, h', l', i, b, frame) && Aside(h, l, h', l')
  {
    hide *;
    Keys(h, l);
    ListIs(l, InTx);
    Elements(h, l, InTx);
    var s := l.at[InTx];
    var h1 := h.(mem := h.mem[b := TxItem(At(s, i), frame)]);
    TypedItem(TxItem(At(s, i), frame));
    Write(h, l, b, TxItem(At(s, i), frame));
    Attach(h1, l, InTx, i, b);
    QueuedIs(h, s, i, b, frame);
    var h' := Queued(h, s, i, b, frame);
    RelinkContents(h1, l.tag, InTx, s, i, b);
    SameThroughWrite(h.mem, h'.mem, l.tag, b, TxItem(At(s, i), frame));
    WithItem(l, i, b);
    SameRx(h, l, h', With(l, InTx, i, b));
    WithFrames(h, l, h', i, b, frame);
    EnqueuedIs(h, l, h', With(l, InTx, i, b), i, b, frame);
    QueuedLent(h, s, i, b, frame);
    QueuedAside(h, l, h', i, b);
  }

  lemma QueuedLent(h: Heap, s: seq<nat>, i: nat, b: nat, frame: Frame)
    requires i <= |s| && b < |h.mem| && (i > 0 ==> s[i - 1] < |h.mem|)
    ensures Queued(h, s, i, b, frame).lent == h.lent
  {
  }

  /** Only the TX queue and blocks that were free or held may differ. */
  ghost predicate Aside(h: Heap, l: Lists, h': Heap, l': Lists) {
    && |h'.mem| == |h.mem| == |l.tag| == |l'.tag| && h'.lent == h.lent
    && List(l', InRx) == List(l, InRx) && List(l', InTransfer) == List(l, InTransfer)
    && (forall q: nat {:trigger BuffersOf(l', q)} :: BuffersOf(l', q) == BuffersOf(l, q))
    && (forall b: nat {:trigger l'.tag[b]} {:trigger h'.mem[b]} |
          b < |l.tag| && l.tag[b] != InFree && l.tag[b] != Held ::
          l'.tag[b] == l.tag[b] && SameContent(h.mem[b], h'.mem[b]))
  }

  lemma AsideReflexive(h: Heap, l: Lists)
    requires |h.mem| == |l.tag|
    ensures Aside(h, l, h, l)
  {
  }

  lemma AsideTransitive(h: Heap, l: Lists, h1: Heap, l1: Lists, h2: Heap, l2: Lists)
    requires Aside(h, l, h1, l1) && Aside(h1, l1, h2, l2)
    ensures Aside(h, l, h2, l2)
  {
    forall q: nat ensures BuffersOf(l2, q) == BuffersOf(l, q) {
      assert BuffersOf(l1, q) == BuffersOf(l, q);
    }
    forall b: nat | b < |l.tag| && l.tag[b] != InFree && l.tag[b] != Held
      ensures l2.tag[b] == l.tag[b] && SameContent(h.mem[b], h2.mem[b])
    {
      assert l1.tag[b] == l.tag[b];
    }
  }

  /** Taking a free block, and filling it. */
  lemma CreatedAside(h: Heap, l: Lists, h': Heap, b: nat)
    requires InFree in l.at && l.at[InFree] != [] && l.at[InFree][0] == b && |h.mem| == |l.tag| && b < |l.tag|
    requires l.tag[b] == InFree && h'.lent == h.lent && |h'.mem| == |h.mem| && h'.mem == h.mem[b := h'.mem[b]]
    ensures Aside(h, l, h', Without(l, InFree, 0))
  {
    assert Without(l, InFree, 0).tag == l.tag[b := Held];
  }

  lemma WrittenAside(h: Heap, l: Lists, b: nat, v: Block)
    requires |h.mem| == |l.tag| && b < |l.tag| && l.tag[b] == Held
    ensures Aside(h, l, h.(mem := h.mem[b := v]), l)
  {
  }

  lemma QueuedAside(h: Heap, l: Lists, h': Heap, i: nat, b: nat)
    requires InTx in l.at && i <= |l.at[InTx]| && b < |l.tag| && l.tag[b] == Held
    requires h'.lent == h.lent && SameContents(h.mem, h'.mem, l.tag)
    ensures Aside(h, l, h', With(l, InTx, i, b))
  {
    WithItem(l, i, b);
  }

  /** For a reception state, queueing is like any step that leaves it alone. */
  lemma AsideIsRest(h: Heap, l: Lists, h': Heap, l': Lists, r: nat)
    requires Aside(h, l, h', l') && r < |l.tag| && l.tag[r] == InRx
    ensures KeptRest(h, l, h', l', r) && r < |l'.tag| && l'.tag[r] == InRx
    ensures h'.lent == h.lent && List(l', InTransfer) == List(l, InTransfer) && BuffersOf(l', r) == BuffersOf(l, r)
    ensures |h'.mem| == |h.mem| == |l.tag| && FieldsOf(h'.mem[r]) == FieldsOf(h.mem[r])
  {
    hide BuffersOf;
    assert l'.tag[r] == l.tag[r];
  }

  lemma EnqueuedIs(h: Heap, l: Lists, h': Heap, l': Lists, i: nat, b: nat, frame: Frame)
    requires i <= |TxOf(h, l)| && TxOf(h', l') == TxOf(h, l)[..i] + [frame] + TxOf(h, l)[i..]
    requires RxOf(h', l') == RxOf(h, l) && FreeCount(l') == FreeCount(l) && List(l', InTransfer) == List(l, InTransfer)
    requires b < |l.tag| && l'.tag == l.tag[b := InTx]
    ensures Enqueued(h, l, h', l', i, b, frame)
  {
  }

  lemma TypedItem(v: Block)
    requires v.TxItem?
    ensures Typed(v, InTx)
  {
  }

  lemma ListIs(l: Lists, k: Key)
    requires k in l.at
    ensures List(l, k) == l.at[k]
  {
  }

  lemma QueuedIs(h: Heap, s: seq<nat>, i: nat, b: nat, frame: Frame)
    requires i <= |s| && b < |h.mem| && (forall j | 0 <= j < |s| :: s[j] < |h.mem|)
    ensures Queued(h, s, i, b, frame) == Relink(h.(mem := h.mem[b := TxItem(At(s, i), frame)]), InTx, s, i, b)
  {
  }

  lemma WithItem(l: Lists, i: nat, b: nat)
    requires InTx in l.at && i <= |l.at[InTx]| && b < |l.tag|
    ensures var l' := With(l, InTx, i, b);
            && FreeCount(l') == FreeCount(l) && List(l', InTransfer) == List(l, InTransfer)
            && List(l', InRx) == List(l, InRx)
            && l'.tag == l.tag[b := InTx] && List(l', InTx) == Inserted(l.at[InTx], i, b)
            && forall q: nat :: BuffersOf(l', q) == BuffersOf(l, q)
  {
  }

  lemma WithFrames(h: Heap, l: Lists, h': Heap, i: nat, b: nat, frame: Frame)
    requires InTx in l.at && i <= |l.at[InTx]| && b < |l.tag| == |h.mem| && l.tag[b] == Held
    requires forall j | 0 <= j < |l.at[InTx]| :: l.at[InTx][j] < |h.mem| && l.tag[l.at[InTx][j]] == InTx
    requires h' == Queued(h, l.at[InTx], i, b, frame) && SameContents(h.mem, h'.mem, l.tag)
    requires List(With(l, InTx, i, b), InTx) == Inserted(l.at[InTx], i, b)
    ensures i <= |TxOf(h, l)|
    ensures TxOf(h', With(l, InTx, i, b)) == TxOf(h, l)[..i] + [frame] + TxOf(h, l)[i..]
  {
    hide With;
    var s := l.at[InTx];
    forall j | 0 <= j < |s| ensures FrameAt(h', s[j]) == FrameAt(h, s[j]) {
      assert SameContent(h.mem[s[j]], h'.mem[s[j]]);
    }
    assert FrameAt(h', b) == frame;
  }

  lemma TxLength(h: Heap, l: Lists)
    ensures |TxOf(h, l)| == |List(l, InTx)|
            && forall i | 0 <= i < |List(l, InTx)| :: TxOf(h, l)[i] == FrameAt(h, List(l, InTx)[i])
  {
  }

  /** Taking the first frame off the queue. */
  lemma DropItem(h: Heap, l: Lists)
    requires Inv(h, l) && List(l, InTx) != []
    ensures var s := List(l, InTx); var h' := h.(tx := At(s, 1)); var l' := Without(l, InTx, 0);
            && |h.mem| == |l.tag| && s[0] < |h.mem| && h.tx == s[0] && h.mem[s[0]].next == At(s, 1)
            && Inv(h', l') && RxOf(h', l') == RxOf(h, l) && TxOf(h', l') == TxOf(h, l)[1..]
            && FreeCount(l') == FreeCount(l) && List(l', InTransfer) == List(l, InTransfer)
            && l.tag[s[0]] == InTx && l'.tag == l.tag[s[0] := Held]
  {
    hide *;
    Keys(h, l);
    ListIs(l, InTx);
    Elements(h, l, InTx);
    NextElement(h, l, InTx, 0);
    Detach(h, l, InTx, 0);
    var s := l.at[InTx];
    HeadOfQueue(h, s);
    WithoutItem(l);
    SameMemory(h.mem, l.tag);
    SameRx(h, l, h.(tx := At(s, 1)), Without(l, InTx, 0));
    RestOfFrames(h, l, h.(tx := At(s, 1)), Without(l, InTx, 0));
  }

  lemma HeadOfQueue(h: Heap, s: seq<nat>)
    ensures Head(h, InTx) == h.tx && Relink(h, InTx, s, 0, At(s, 1)) == h.(tx := At(s, 1))
    ensures s != [] ==> At(s, 0) == s[0]
  {
  }

  lemma SameMemory(mem: seq<Block>, tag: seq<Key>)
    requires |mem| == |tag|
    ensures SameContents(mem, mem, tag)
  {
  }

  lemma WithoutItem(l: Lists)
    requires InTx in l.at && l.at[InTx] != [] && l.at[InTx][0] < |l.tag|
    ensures var l' := Without(l, InTx, 0);
            && FreeCount(l') == FreeCount(l) && List(l', InTransfer) == List(l, InTransfer)
            && List(l', InRx) == List(l, InRx)
            && l'.tag == l.tag[l.at[InTx][0] := Held] && List(l', InTx) == l.at[InTx][1..]
            && forall q: nat :: BuffersOf(l', q) == BuffersOf(l, q)
  {
    RemovedSize(l.at[InTx], 0);
  }

  lemma RestOfFrames(h: Heap, l: Lists, h': Heap, l': Lists)
    requires List(l, InTx) != [] && List(l', InTx) == List(l, InTx)[1..] && h'.mem == h.mem
    ensures TxOf(h', l') == TxOf(h, l)[1..]
  {
  }

  /** Giving a held block back to the free list changes no content. */
  lemma GiveFreeContents(h: Heap, l: Lists, b: nat)
    requires Inv(h, l) && b < |l.tag| == |h.mem| && l.tag[b] == Held
    ensures InFree in l.at
    ensures var h' := h.(mem := h.mem[b := FreeBlock(h.free)], free := b); var l' := With(l, InFree, 0, b);
            RxOf(h', l') == RxOf(h, l) && TxOf(h', l') == TxOf(h, l) && List(l', InTransfer) == List(l, InTransfer)
            && List(l', InRx) == List(l, InRx)
  {
    hide *;
    Keys(h, l);
    var h' := h.(mem := h.mem[b := FreeBlock(h.free)], free := b);
    WithFree(l, b);
    WriteContents(h.mem, l.tag, b, FreeBlock(h.free));
    SameRx(h, l, h', With(l, InFree, 0, b));
    Elements(h, l, InTx);
    SameFrames(h, l, h', With(l, InFree, 0, b));
  }

  lemma WithFree(l: Lists, b: nat)
    requires InFree in l.at
    ensures var l' := With(l, InFree, 0, b);
            && List(l', InTransfer) == List(l, InTransfer) && List(l', InRx) == List(l, InRx)
            && List(l', InTx) == List(l, InTx)
            && forall q: nat :: BuffersOf(l', q) == BuffersOf(l, q)
  {
  }

  lemma SameFrames(h: Heap, l: Lists, h': Heap, l': Lists)
    requires SameContents(h.mem, h'.mem, l.tag) && InTx in l.at && List(l', InTx) == List(l, InTx)
    requires forall j | 0 <= j < |l.at[InTx]| :: l.at[InTx][j] < |h.mem| && l.tag[l.at[InTx][j]] == InTx
    ensures TxOf(h', l') == TxOf(h, l)
  {
    var s := l.at[InTx];
    forall j | 0 <= j < |s| ensures FrameAt(h', s[j]) == FrameAt(h, s[j]) {
      assert SameContent(h.mem[s[j]], h'.mem[s[j]]);
    }
  }

  /** A held block may be written freely. */
  lemma WriteHeld(h: Heap, l: Lists, b: nat, v: Block)
    requires Inv(h, l) && b < |l.tag| && l.tag[b] == Held
    ensures |l.tag| == |h.mem|
    ensures var h' := h.(mem := h.mem[b := v]); Inv(h', l) && RxOf(h', l) == RxOf(h, l) && TxOf(h', l) == TxOf(h, l)
  {
    hide *;
    Keys(h, l);
    var h' := h.(mem := h.mem[b := v]);
    Write(h, l, b, v);
    WriteContents(h.mem, l.tag, b, v);
    SameRx(h, l, h', l);
    Elements(h, l, InTx);
    SameFrames(h, l, h', l);
  }

  lemma QueueEnds(h: Heap, l: Lists)
    requires Inv(h, l)
    ensures InTx in l.at && List(l, InTx) == l.at[InTx] && h.tx == At(List(l, InTx), 0)
  {
    Elements(h, l, InTx);
  }

  lemma QueueItem(h: Heap, l: Lists, i: nat)
    requires Inv(h, l) && i < |List(l, InTx)|
    ensures |TxOf(h, l)| == |List(l, InTx)|
    ensures var b := List(l, InTx)[i];
            b < |h.mem| && h.mem[b].TxItem? && h.mem[b].next == At(List(l, InTx), i + 1)
                && h.mem[b].frame == TxOf(h, l)[i]
  {
    Keys(h, l);
    Elements(h, l, InTx);
    NextElement(h, l, InTx, i);
  }

  lemma HeldAfterPush(l: Lists, l': Lists, b: nat)
    requires b < |l.tag| && l'.tag == l.tag[b := InTx] && l.tag[b] == Held
    ensures HeldSet(l') == HeldSet(l) - {b}
  {
  }

  lemma QueueListed(h: Heap, l: Lists, s: seq<nat>)
    requires Inv(h, l) && s == List(l, InTx)
    ensures InTx in l.at && s == l.at[InTx]
  {
    Keys(h, l);
  }

  // ---------------------------------------------------------------------------------------------
  // Removing a state

  /** The heap after element j of the list of states was unlinked. */
  function Unlinked(h: Heap, s: seq<nat>, j: nat): Heap
    requires j < |s| && (j > 0 ==> s[j - 1] < |h.mem|)
  {
    if j == 0 then h.(rx := At(s, 1)) else h.(mem := h.mem[s[j - 1] := h.mem[s[j - 1]].(next := At(s, j + 1))])
  }

  lemma DropState(h: Heap, l: Lists, j: nat)
    requires Inv(h, l) && j < |List(l, InRx)| && BuffersOf(l, List(l, InRx)[j]) == []
    ensures InRx in l.at && |l.tag| == |h.mem| && (j > 0 ==> List(l, InRx)[j - 1] < |h.mem|)
    ensures var s := List(l, InRx); var h' := Unlinked(h, s, j); var l' := Without(l, InRx, j);
            && Inv(h', l') && RxOf(h', l') == WithoutState(RxOf(h, l), j) && TxOf(h', l') == TxOf(h, l)
            && FreeCount(l') == FreeCount(l) && List(l', InTransfer) == List(l, InTransfer)
            && List(l', InRx) == Removed(s, j) && s[j] < |l.tag| && l.tag[s[j]] == InRx && l'.tag == l.tag[s[j] := Held]
  {
    hide *;
    ListOfStates(h, l);
    Keys(h, l);
    Elements(h, l, InRx);
    var s := l.at[InRx];
    var h', l' := Unlinked(h, s, j), Without(l, InRx, j);
    OwnBuffers(h, l, s[j]);
    Detach(h, l, InRx, j);
    UnlinkedIs(h, s, j);
    RelinkContents(h, l.tag, InRx, s, j, At(s, j + 1));
    WithoutStateLists(l, j);
    forall k | 0 <= k < |s| && k != j ensures StateAt(h', l', s[k]) == StateAt(h, l, s[k]) {
      DistinctElements(s, j, k);
      SameState(h, l, h', l', s[k]);
    }
    StatesWithout(h, l, h', l', j);
    Elements(h, l, InTx);
    SameFrames(h, l, h', l');
  }

  lemma OwnBuffers(h: Heap, l: Lists, r: nat)
    requires Inv(h, l) && r < |l.tag| && l.tag[r] == InRx
    ensures InBuffers(r) in l.at && BuffersOf(l, r) == l.at[InBuffers(r)]
  {
    StateBlock(h, l, r);
  }

  lemma UnlinkedIs(h: Heap, s: seq<nat>, j: nat)
    requires j < |s| && forall k | 0 <= k < |s| :: s[k] < |h.mem|
    ensures Unlinked(h, s, j) == Relink(h, InRx, s, j, At(s, j + 1))
  {
  }

  lemma WithoutStateLists(l: Lists, j: nat)
    requires InRx in l.at && InTx in l.at && InFree in l.at && InTransfer in l.at && j < |l.at[InRx]|
    requires l.at[InRx][j] < |l.tag|
    ensures var l' := Without(l, InRx, j);
            && FreeCount(l') == FreeCount(l) && List(l', InTransfer) == List(l, InTransfer)
            && List(l', InTx) == List(l, InTx)
            && List(l', InRx) == Removed(l.at[InRx], j) && l'.tag == l.tag[l.at[InRx][j] := Held]
            && forall q: nat | q != l.at[InRx][j] :: BuffersOf(l', q) == BuffersOf(l, q)
  {
  }

  lemma StatesWithout(h: Heap, l: Lists, h': Heap, l': Lists, j: nat)
    requires j < |List(l, InRx)| && List(l', InRx) == Removed(List(l, InRx), j)
    requires forall k | 0 <= k < |List(l, InRx)| && k != j ::
            StateAt(h', l', List(l, InRx)[k]) == StateAt(h, l, List(l, InRx)[k])
    ensures |RxOf(h, l)| == |List(l, InRx)| && RxOf(h', l') == WithoutState(RxOf(h, l), j)
  {
    hide StateAt;
  }

  lemma SameInRx(h: Heap, l: Lists, h': Heap, l': Lists, r: nat)
    requires KeptRest(h, l, h', l', r)
    ensures List(l', InRx) == List(l, InRx)
  {
  }

  lemma StatesEnd(h: Heap, l: Lists)
    requires Inv(h, l)
    ensures h.rx == At(List(l, InRx), 0)
  {
    Elements(h, l, InRx);
  }

  lemma NextState(h: Heap, l: Lists, j: nat)
    requires Inv(h, l) && j < |List(l, InRx)|
    ensures var b := List(l, InRx)[j]; b < |h.mem| && h.mem[b].RxBlock? && h.mem[b].next == At(List(l, InRx), j + 1)
  {
    Keys(h, l);
    Elements(h, l, InRx);
    NextElement(h, l, InRx, j);
  }

  lemma SameWithout(a: seq<RxState>, b: seq<RxState>, j: nat)
    requires j < |a| == |b| && b == a[j := b[j]]
    ensures WithoutState(b, j) == WithoutState(a, j)
  {
  }

  lemma RemovedAt(s: seq<nat>, j: nat)
    requires j < |s|
    ensures |Removed(s, j)| == |s| - 1 && At(Removed(s, j), j) == At(s, j + 1)
    ensures forall i | 0 <= i < j :: Removed(s, j)[i] == s[i]
  {
  }

  /** Element j of the list and the one before it, if there are such. */
  predicate Cursor(s: seq<nat>, j: nat, state: Link, prev: Link) {
    j <= |s| && state == At(s, j) && (j > 0 ==> prev == s[j - 1])
  }

  lemma CursorStarts(s: seq<nat>, prev: Link)
    ensures Cursor(s, 0, At(s, 0), prev)
  {
  }

  lemma CursorAt(s: seq<nat>, j: nat, state: Link, prev: Link)
    requires Cursor(s, j, state, prev)
    ensures if state == NULL then j == |s| else j < |s| && state == s[j]
    ensures j > 0 ==> prev == s[j - 1]
  {
  }

  /** Behind element j, or over its place if it is removed. */
  lemma CursorMoves(s: seq<nat>, j: nat, state: Link, prev: Link)
    requires Cursor(s, j, state, prev) && state != NULL
    ensures j < |s| && Cursor(s, j + 1, At(s, j + 1), state) && Cursor(Removed(s, j), j, At(Removed(s, j), j), prev)
    ensures At(Removed(s, j), j) == At(s, j + 1)
  {
  }

  /** The instance m while n is being cleaned: k states were looked at, j of them kept. */
  ghost predicate Cleaning(n: Node, now: nat, k: nat, j: nat, m: Node) {
    && k <= |n.rx| && j == |Fresh(n.rx[..k], now)| && j <= |m.rx|
    && m == n.(rx := Fresh(n.rx[..k], now) + n.rx[k..], free := n.free + StaleBlocks(n.rx[..k], now))
  }

  lemma CleaningStarts(n: Node, now: nat)
    ensures Cleaning(n, now, 0, 0, n)
  {
    assert [] + n.rx[0..] == n.rx;
  }

  lemma CleaningStep(n: Node, now: nat, k: nat, j: nat, m: Node)
    requires Cleaning(n, now, k, j, m) && j < |m.rx|
    ensures k < |n.rx|
    ensures !Stale(m.rx[j], now) ==> Cleaning(n, now, k + 1, j + 1, m)
    ensures Stale(m.rx[j], now) ==>
              Cleaning(n, now, k + 1, j, m.(rx := WithoutState(m.rx, j), free := m.free + 1 + m.rx[j].blocks))
  {
    hide Stale, Fresh, StaleBlocks, WithoutState;
    FreshStep(n.rx, k, now);
    SkipState(Fresh(n.rx[..k], now), n.rx, k);
    KeepState(Fresh(n.rx[..k], now), n.rx, k);
  }

  lemma CleaningEnds(n: Node, now: nat, k: nat, j: nat, m: Node)
    requires Cleaning(n, now, k, j, m) && j >= |m.rx|
    ensures m == Cleaned(n, now)
  {
    assert n.rx[..k] == n.rx;
  }

  /** The list while it is being cleaned: what was kept of the first k states, then the others. */
  lemma SkipState(front: seq<RxState>, rx: seq<RxState>, k: nat)
    requires k < |rx|
    ensures (front + rx[k..])[|front|] == rx[k] && WithoutState(front + rx[k..], |front|) == front + rx[k + 1..]
  {
  }

  lemma KeepState(front: seq<RxState>, rx: seq<RxState>, k: nat)
    requires k < |rx|
    ensures (front + rx[k..])[|front|] == rx[k] && front + rx[k..] == (front + [rx[k]]) + rx[k + 1..]
  {
  }

  // ---------------------------------------------------------------------------------------------
  // The initial pool

  function Counted(n: nat): seq<nat> {
    seq(n, i requires 0 <= i < n => i)
  }

  function InitialLists(n: nat): Lists {
    Lists(map[InFree := Counted(n), InTx := [], InRx := [], InTransfer := []], seq(n, _ => InFree))
  }

  predicate Threaded(h: Heap) {
    && h.tx == h.rx == h.lent == NULL && h.free == At(Counted(|h.mem|), 0)
    && forall i: nat | i < |h.mem| :: h.mem[i] == FreeBlock(At(Counted(|h.mem|), i + 1))
  }

  lemma ThreadedIs(h: Heap)
    requires h.tx == h.rx == h.lent == NULL && h.free == if |h.mem| == 0 then NULL else 0
    requires forall i: nat | i < |h.mem| :: h.mem[i] == FreeBlock(if i + 1 < |h.mem| then i + 1 else NULL)
    ensures Threaded(h)
  {
  }

  /** A freshly threaded arena is a well-formed pool. */
  lemma InitialPool(h: Heap)
    requires Threaded(h)
    ensures Inv(h, InitialLists(|h.mem|))
    ensures var l := InitialLists(|h.mem|);
            FreeCount(l) == |h.mem| && HeldSet(l) == {} && RxOf(h, l) == [] && TxOf(h, l) == []
                && List(l, InTransfer) == []
  {
    hide *;
    InitialPartition(|h.mem|);
    InitialLinks(h);
    FoldInv(h, InitialLists(|h.mem|));
    InitialContents(h);
  }

  lemma InitialPartition(n: nat)
    ensures Partition(InitialLists(n))
  {
    hide Tagged;
    var l := InitialLists(n);
    CountedTagged(n);
    NothingTagged(n, InTx);
    NothingTagged(n, InRx);
    NothingTagged(n, InTransfer);
  }

  lemma NothingTagged(n: nat, k: Key)
    requires k != InFree
    ensures Tagged(seq(n, _ => InFree), [], k)
  {
  }

  lemma CountedTagged(n: nat)
    ensures Tagged(seq(n, _ => InFree), Counted(n), InFree)
  {
    forall b: nat | b < n ensures b in Counted(n) {
      assert Counted(n)[b] == b;
    }
  }

  lemma InitialLinks(h: Heap)
    requires Threaded(h)
    ensures Links(h, InitialLists(|h.mem|)) && AllTyped(h.mem, InitialLists(|h.mem|).tag)
  {
    hide Linked;
    CountedLinked(h);
    LinkedEmpty(h.mem);
  }

  lemma CountedLinked(h: Heap)
    requires Threaded(h)
    ensures Linked(h.mem, h.free, Counted(|h.mem|))
  {
  }

  lemma InitialContents(h: Heap)
    ensures var l := InitialLists(|h.mem|);
            FreeCount(l) == |h.mem| && HeldSet(l) == {} && RxOf(h, l) == [] && TxOf(h, l) == []
                && List(l, InTransfer) == []
  {
  }
}

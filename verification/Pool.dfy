/** The memory pool: one arena of blocks threaded by singly linked lists (free list, TX queue, reception states, the
    buffer blocks of every state, and the blocks lent to the application), and the steps that keep them apart. */
module Pool {
  import opened CanFrames

  type Link = int
  const NULL: Link := -1

  /** The fields of a reception state other than its links. */
  datatype Fields = Fields(timestamp: nat, desc: nat, payloadCrc: bv16, calculatedCrc: bv16, length: nat,
                           transferId: bv8, toggle: bool, head: seq<bv8>)

  datatype Block =
    | FreeBlock(next: Link)
    | TxItem(next: Link, frame: Frame)
    | RxBlock(next: Link, buffers: Link, fields: Fields)
    | BufferBlock(next: Link, data: seq<bv8>)

  /** Where a block is. A `Held` block was allocated and is not yet in a list, or was taken out of one. */
  datatype Key = InFree | InTx | InRx | InBuffers(owner: nat) | InTransfer | Held

  /** The arena with its list heads; `lent` is the list of a transfer the application holds. */
  datatype Heap = Heap(mem: seq<Block>, free: Link, tx: Link, rx: Link, lent: Link)

  /** The contents of every list, and the list of every block. */
  datatype Lists = Lists(at: map<Key, seq<nat>>, tag: seq<Key>)

  function At(s: seq<nat>, i: nat): Link {
    if i < |s| then s[i] else NULL
  }

  function Head(h: Heap, k: Key): Link {
    match k
    case InFree => h.free
    case InTx => h.tx
    case InRx => h.rx
    case InTransfer => h.lent
    case InBuffers(r) => if r < |h.mem| && h.mem[r].RxBlock? then h.mem[r].buffers else NULL
    case Held => NULL
  }

  predicate Typed(b: Block, k: Key) {
    match k
    case InTx => b.TxItem?
    case InRx => b.RxBlock? && |b.fields.head| == 6 && b.fields.length < 1024 && b.fields.transferId < 32
    case InBuffers(_) => b.BufferBlock? && |b.data| == 28
    case InTransfer => b.BufferBlock? && |b.data| == 28
    case _ => true
  }

  predicate Distinct(s: seq<nat>) {
    forall i, j | 0 <= i < j < |s| :: s[i] != s[j]
  }

  function Removed(s: seq<nat>, i: nat): seq<nat>
    requires i < |s|
  {
    s[..i] + s[i + 1..]
  }

  function Inserted(s: seq<nat>, i: nat, b: nat): seq<nat>
    requires i <= |s|
  {
    s[..i] + [b] + s[i..]
  }

  /** From `head`, the links run through s and end. */
  predicate Linked(mem: seq<Block>, head: Link, s: seq<nat>) {
    && head == At(s, 0)
    && (forall i | 0 <= i < |s| :: s[i] < |mem|)
    && forall i {:trigger mem[s[i]]} | 0 <= i < |s| :: mem[s[i]].next == At(s, i + 1)
  }

  /** s lists the blocks tagged k, each once. */
  ghost predicate Tagged(tag: seq<Key>, s: seq<nat>, k: Key) {
    && Distinct(s)
    && (forall i | 0 <= i < |s| :: s[i] < |tag| && tag[s[i]] == k)
    && (forall b: nat {:trigger b in s} | b < |tag| && tag[b] == k :: b in s)
  }

  /** The tags and the lists agree: every block is in exactly one list, or held. */
  ghost predicate Partition(l: Lists) {
    && InFree in l.at && InTx in l.at && InRx in l.at && InTransfer in l.at && Held !in l.at
    && (forall r: nat | InBuffers(r) in l.at :: r < |l.tag| && l.tag[r] == InRx)
    && (forall r: nat | r < |l.tag| && l.tag[r] == InRx :: InBuffers(r) in l.at)
    && (forall b: nat | b < |l.tag| :: l.tag[b] == Held || l.tag[b] in l.at)
    && (forall k {:trigger l.at[k]} | k in l.at :: Tagged(l.tag, l.at[k], k))
  }

  predicate AllTyped(mem: seq<Block>, tag: seq<Key>) {
    && |tag| == |mem|
    && forall b: nat | b < |mem| :: Typed(mem[b], tag[b])
  }

  ghost predicate Links(h: Heap, l: Lists) {
    forall k {:trigger l.at[k]} | k in l.at :: Linked(h.mem, Head(h, k), l.at[k])
  }

  ghost predicate Inv(h: Heap, l: Lists) {
    Partition(l) && AllTyped(h.mem, l.tag) && Links(h, l)
  }

  // ---------------------------------------------------------------------------------------------
  // Steps

  function SetHead(h: Heap, k: Key, v: Link): Heap {
    match k
    case InFree => h.(free := v)
    case InTx => h.(tx := v)
    case InRx => h.(rx := v)
    case InTransfer => h.(lent := v)
    case InBuffers(r) =>
      if r < |h.mem| && h.mem[r].RxBlock? then h.(mem := h.mem[r := h.mem[r].(buffers := v)]) else h
    case Held => h
  }

  /** Redirects the link that leads to position i of list s. */
  function Relink(h: Heap, k: Key, s: seq<nat>, i: nat, v: Link): Heap {
    if i == 0 then SetHead(h, k, v)
    else if i <= |s| && s[i - 1] < |h.mem| then h.(mem := h.mem[s[i - 1] := h.mem[s[i - 1]].(next := v)])
    else h
  }

  function Retag(tag: seq<Key>, b: nat, k: Key): seq<Key> {
    if b < |tag| then tag[b := k] else tag
  }

  /** Block b = l.at[k][i] is taken out. A state takes its (empty) buffer list with it. */
  function Without(l: Lists, k: Key, i: nat): Lists
    requires k in l.at && i < |l.at[k]|
  {
    var s := l.at[k];
    var rest := if k == InRx then l.at - {InBuffers(s[i])} else l.at;
    Lists(rest[k := Removed(s, i)], Retag(l.tag, s[i], Held))
  }

  /** Block b becomes element i of list k. A state gets an empty buffer list. */
  function With(l: Lists, k: Key, i: nat, b: nat): Lists
    requires k in l.at && i <= |l.at[k]|
  {
    var s := l.at[k];
    var more := if k == InRx then l.at[InBuffers(b) := []] else l.at;
    Lists(more[k := Inserted(s, i, b)], Retag(l.tag, b, k))
  }

  lemma KeepLinked(mem: seq<Block>, head: Link, s: seq<nat>, b: nat, v: Block)
    requires Linked(mem, head, s) && b < |mem| && (b in s ==> v.next == mem[b].next)
    ensures Linked(mem[b := v], head, s)
  {
  }

  lemma UnlinkInner(mem: seq<Block>, head: Link, s: seq<nat>, i: nat)
    requires Linked(mem, head, s) && Distinct(s) && 0 < i < |s|
    ensures Linked(mem[s[i - 1] := mem[s[i - 1]].(next := At(s, i + 1))], head, Removed(s, i))
  {
    var r := Removed(s, i);
    assert forall j | 0 <= j < |r| :: r[j] == if j < i then s[j] else s[j + 1];
  }

  lemma LinkInner(mem: seq<Block>, head: Link, s: seq<nat>, i: nat, b: nat)
    requires Linked(mem, head, s) && Distinct(s) && 0 < i <= |s| && b < |mem| && b !in s && mem[b].next == At(s, i)
    ensures Linked(mem[s[i - 1] := mem[s[i - 1]].(next := b)], head, Inserted(s, i, b))
  {
    var r := Inserted(s, i, b);
    assert forall j | 0 <= j < |r| :: r[j] == if j < i then s[j] else if j == i then b else s[j - 1];
  }

  lemma Untag(tag: seq<Key>, s: seq<nat>, k: Key, i: nat, k': Key)
    requires Tagged(tag, s, k) && i < |s| && k' != k
    ensures Tagged(tag[s[i] := k'], Removed(s, i), k)
  {
    var r := Removed(s, i);
    assert forall j | 0 <= j < |r| :: r[j] == if j < i then s[j] else s[j + 1];
    forall c: nat | c < |tag| && tag[s[i] := k'][c] == k ensures c in r {
      assert c in s;
      var j :| 0 <= j < |s| && s[j] == c;
      assert r[if j < i then j else j - 1] == c;
    }
  }

  lemma Tag(tag: seq<Key>, s: seq<nat>, k: Key, i: nat, b: nat)
    requires Tagged(tag, s, k) && i <= |s| && b < |tag| && tag[b] != k
    ensures Tagged(tag[b := k], Inserted(s, i, b), k)
  {
    var r := Inserted(s, i, b);
    assert forall j | 0 <= j < |r| :: r[j] == if j < i then s[j] else if j == i then b else s[j - 1];
    forall c: nat | c < |tag| && tag[b := k][c] == k ensures c in r {
      if c == b {
        assert r[i] == b;
      } else {
        assert c in s;
        var j :| 0 <= j < |s| && s[j] == c;
        assert r[if j < i then j else j + 1] == c;
      }
    }
  }

  lemma KeepTagged(tag: seq<Key>, s: seq<nat>, k: Key, b: nat, k': Key)
    requires Tagged(tag, s, k) && b < |tag| && tag[b] != k && k' != k
    ensures Tagged(tag[b := k'], s, k)
  {
  }

  /** Taking a block out of a list keeps every list intact. */
  lemma Detach(h: Heap, l: Lists, k: Key, i: nat)
    requires Inv(h, l) && k in l.at && i < |l.at[k]|
    requires k == InRx ==> InBuffers(l.at[k][i]) in l.at && l.at[InBuffers(l.at[k][i])] == []
    ensures Inv(Relink(h, k, l.at[k], i, At(l.at[k], i + 1)), Without(l, k, i))
  {
    hide *;
    assert Partition(l) && AllTyped(h.mem, l.tag) && Links(h, l) by { UnfoldInv(h, l); }
    PartitionWithout(l, k, i);
    LinksWithout(h, l, k, i);
    FoldInv(Relink(h, k, l.at[k], i, At(l.at[k], i + 1)), Without(l, k, i));
  }

  lemma UnfoldInv(h: Heap, l: Lists)
    requires Inv(h, l)
    ensures Partition(l) && AllTyped(h.mem, l.tag) && Links(h, l)
  {
  }

  lemma FoldInv(h: Heap, l: Lists)
    requires Partition(l) && AllTyped(h.mem, l.tag) && Links(h, l)
    ensures Inv(h, l)
  {
  }

  lemma PartitionWithout(l: Lists, k: Key, i: nat)
    requires Partition(l) && k in l.at && i < |l.at[k]|
    requires k == InRx ==> InBuffers(l.at[k][i]) in l.at && l.at[InBuffers(l.at[k][i])] == []
    ensures Partition(Without(l, k, i))
  {
    var l' := Without(l, k, i);
    forall q | q in l'.at ensures Tagged(l'.tag, l'.at[q], q) {
      if q == k {
        Untag(l.tag, l.at[k], k, i, Held);
      } else {
        KeepTagged(l.tag, l.at[q], q, l.at[k][i], Held);
      }
    }
    if k == InRx {
      NoneTagged(l.tag, InBuffers(l.at[k][i]));
    }
  }

  lemma NoneTagged(tag: seq<Key>, k: Key)
    requires Tagged(tag, [], k)
    ensures forall b: nat | b < |tag| :: tag[b] != k
  {
    var none: seq<nat> := [];
    forall b: nat | b < |tag| ensures tag[b] != k {
      assert tag[b] == k ==> b in none;
    }
  }

  lemma LinksWithout(h: Heap, l: Lists, k: Key, i: nat)
    requires Partition(l) && AllTyped(h.mem, l.tag) && Links(h, l) && k in l.at && i < |l.at[k]|
    ensures var h' := Relink(h, k, l.at[k], i, At(l.at[k], i + 1));
            Links(h', Without(l, k, i)) && AllTyped(h'.mem, Without(l, k, i).tag)
  {
    hide Linked, Tagged, AllTyped, Relink, SetHead;
    var s := l.at[k];
    var v := At(s, i + 1);
    RelinkTyped(h, l.tag, k, s, i, v);
    UntagTyped(Relink(h, k, s, i, v).mem, l.tag, s[i]);
    forall q | q in Without(l, k, i).at
           ensures Linked(Relink(h, k, s, i, v).mem, Head(Relink(h, k, s, i, v), q), Without(l, k, i).at[q]) {
      if q != k {
        RelinkElsewhere(h, l.tag, k, s, i, v, q, l.at[q]);
      } else {
        assert k.InBuffers? ==> k == InBuffers(k.owner);
        UnlinkHere(h, l.tag, k, s, i);
      }
    }
  }

  lemma UntagTyped(mem: seq<Block>, tag: seq<Key>, b: nat)
    requires AllTyped(mem, tag)
    ensures AllTyped(mem, Retag(tag, b, Held))
  {
  }

  lemma UnlinkHere(h: Heap, tag: seq<Key>, k: Key, s: seq<nat>, i: nat)
    requires AllTyped(h.mem, tag) && i < |s| && k != Held
    requires k.InBuffers? ==> k.owner < |tag| && tag[k.owner] == InRx
    requires Tagged(tag, s, k) && Linked(h.mem, Head(h, k), s)
    ensures var h' := Relink(h, k, s, i, At(s, i + 1)); Linked(h'.mem, Head(h', k), Removed(s, i))
  {
    if i > 0 {
      UnlinkInner(h.mem, Head(h, k), s, i);
      hide Tagged, Linked;
    } else {
      hide Tagged, Linked, SetHead;
      HeadSet(h, k, At(s, 1));
      UnlinkFirst(h.mem, Head(h, k), s);
      SetHeadLinked(h, k, At(s, 1), At(s, 1), Removed(s, 0));
    }
  }

  lemma UnlinkFirst(mem: seq<Block>, head: Link, s: seq<nat>)
    requires Linked(mem, head, s) && 0 < |s|
    ensures Linked(mem, At(s, 1), Removed(s, 0))
  {
    var r := Removed(s, 0);
    assert forall j | 0 <= j < |r| :: r[j] == s[j + 1];
  }

  /** Putting a held block into a list keeps every list intact. */
  lemma Attach(h: Heap, l: Lists, k: Key, i: nat, b: nat)
    requires Inv(h, l) && k in l.at && i <= |l.at[k]| && b < |h.mem| && b < |l.tag| && l.tag[b] == Held
    requires Typed(h.mem[b], k) && h.mem[b].next == At(l.at[k], i)
    requires k == InRx ==> h.mem[b].buffers == NULL
    ensures Inv(Relink(h, k, l.at[k], i, b), With(l, k, i, b))
  {
    hide *;
    assert Partition(l) && AllTyped(h.mem, l.tag) && Links(h, l) by { UnfoldInv(h, l); }
    PartitionWith(l, k, i, b);
    LinksWith(h, l, k, i, b);
    FoldInv(Relink(h, k, l.at[k], i, b), With(l, k, i, b));
  }

  lemma PartitionWith(l: Lists, k: Key, i: nat, b: nat)
    requires Partition(l) && k in l.at && i <= |l.at[k]| && b < |l.tag| && l.tag[b] == Held
    ensures Partition(With(l, k, i, b))
  {
    var l' := With(l, k, i, b);
    forall q | q in l'.at ensures Tagged(l'.tag, l'.at[q], q) {
      if q == k {
        Tag(l.tag, l.at[k], k, i, b);
      } else if q in l.at {
        KeepTagged(l.tag, l.at[q], q, b, k);
      } else {
        NotYetTagged(l, b, k);
      }
    }
  }

  lemma NotYetTagged(l: Lists, b: nat, k: Key)
    requires Partition(l) && b < |l.tag| && l.tag[b] == Held && k == InRx
    ensures Tagged(l.tag[b := k], [], InBuffers(b))
  {
    assert InBuffers(b) !in l.at;
  }

  lemma LinksWith(h: Heap, l: Lists, k: Key, i: nat, b: nat)
    requires Partition(l) && AllTyped(h.mem, l.tag) && Links(h, l) && k in l.at && i <= |l.at[k]|
    requires b < |h.mem| && l.tag[b] == Held && Typed(h.mem[b], k) && h.mem[b].next == At(l.at[k], i)
    requires k == InRx ==> h.mem[b].buffers == NULL
    ensures var h' := Relink(h, k, l.at[k], i, b);
            Links(h', With(l, k, i, b)) && AllTyped(h'.mem, With(l, k, i, b).tag)
  {
    hide Linked, Tagged, AllTyped, Relink, SetHead, Typed;
    var s := l.at[k];
    RelinkTyped(h, l.tag, k, s, i, b);
    RelinkBlock(h, l.tag, k, s, i, b);
    TagTyped(Relink(h, k, s, i, b).mem, l.tag, b, k);
    forall q | q in With(l, k, i, b).at
      ensures Linked(Relink(h, k, s, i, b).mem, Head(Relink(h, k, s, i, b), q), With(l, k, i, b).at[q])
    {
      if q == k {
        assert k.InBuffers? ==> k == InBuffers(k.owner);
        LinkHere(h, l.tag, k, s, i, b);
      } else if q in l.at && q != InBuffers(b) {
        RelinkElsewhere(h, l.tag, k, s, i, b, q, l.at[q]);
      } else {
        LinkedEmpty(Relink(h, k, s, i, b).mem);
      }
    }
  }

  lemma LinkedEmpty(mem: seq<Block>)
    ensures Linked(mem, NULL, [])
  {
  }

  /** A block outside the relinked list is not touched, except for the buffers field of the owner of that list. */
  lemma RelinkBlock(h: Heap, tag: seq<Key>, k: Key, s: seq<nat>, i: nat, b: nat)
    requires AllTyped(h.mem, tag) && i <= |s| && Tagged(tag, s, k) && b < |tag| && tag[b] == Held && k != Held
    requires Typed(h.mem[b], k)
    requires k.InBuffers? ==> k.owner < |tag| && tag[k.owner] == InRx
    ensures var h' := Relink(h, k, s, i, b); |h'.mem| == |h.mem| && h'.mem[b] == h.mem[b]
  {
  }

  lemma TagTyped(mem: seq<Block>, tag: seq<Key>, b: nat, k: Key)
    requires AllTyped(mem, tag) && (b < |mem| ==> Typed(mem[b], k))
    ensures AllTyped(mem, Retag(tag, b, k))
  {
  }

  lemma LinkHere(h: Heap, tag: seq<Key>, k: Key, s: seq<nat>, i: nat, b: nat)
    requires AllTyped(h.mem, tag) && i <= |s| && k != Held && b < |tag| && tag[b] == Held
    requires k.InBuffers? ==> k.owner < |tag| && tag[k.owner] == InRx
    requires Tagged(tag, s, k) && Linked(h.mem, Head(h, k), s) && h.mem[b].next == At(s, i)
    ensures var h' := Relink(h, k, s, i, b); Linked(h'.mem, Head(h', k), Inserted(s, i, b))
  {
    if i > 0 {
      LinkInner(h.mem, Head(h, k), s, i, b);
      hide Tagged, Linked;
    } else {
      hide Tagged, Linked, SetHead;
      HeadSet(h, k, b);
      LinkFirst(h.mem, Head(h, k), s, b);
      SetHeadLinked(h, k, b, b, Inserted(s, 0, b));
    }
  }

  lemma LinkFirst(mem: seq<Block>, head: Link, s: seq<nat>, b: nat)
    requires Linked(mem, head, s) && b < |mem| && mem[b].next == head
    ensures Linked(mem, b, Inserted(s, 0, b))
  {
    var r := Inserted(s, 0, b);
    assert forall j | 0 <= j < |r| :: r[j] == if j == 0 then b else s[j - 1];
  }

  lemma SetHeadLinked(h: Heap, k: Key, v: Link, head: Link, s: seq<nat>)
    requires Linked(h.mem, head, s)
    ensures Linked(SetHead(h, k, v).mem, head, s)
  {
  }

  lemma HeadSet(h: Heap, k: Key, v: Link)
    requires k != Held && (k.InBuffers? ==> k.owner < |h.mem| && h.mem[k.owner].RxBlock?)
    ensures Head(SetHead(h, k, v), k) == v
    ensures forall q: Key | q != k :: Head(SetHead(h, k, v), q) == Head(h, q)
  {
  }

  /** Relinking one list leaves the types, the other lists and their heads alone. */
  lemma RelinkTyped(h: Heap, tag: seq<Key>, k: Key, s: seq<nat>, i: nat, v: Link)
    requires AllTyped(h.mem, tag)
    ensures |tag| == |h.mem| && AllTyped(Relink(h, k, s, i, v).mem, tag)
  {
  }

  lemma RelinkElsewhere(h: Heap, tag: seq<Key>, k: Key, s: seq<nat>, i: nat, v: Link, q: Key, t: seq<nat>)
    requires AllTyped(h.mem, tag) && i <= |s| && k != q
    requires Tagged(tag, s, k) && Tagged(tag, t, q) && Linked(h.mem, Head(h, q), t)
    ensures var h' := Relink(h, k, s, i, v); Linked(h'.mem, Head(h', q), t)
  {
    if i > 0 {
      KeepLinked(h.mem, Head(h, q), t, s[i - 1], h.mem[s[i - 1]].(next := v));
    }
  }

  /** Writing to a block without touching its links keeps every list intact; a held block may be written freely. */
  lemma Write(h: Heap, l: Lists, b: nat, v: Block)
    requires Inv(h, l) && b < |h.mem| && b < |l.tag|
    requires l.tag[b] != Held ==> v.next == h.mem[b].next && Typed(v, l.tag[b])
    requires l.tag[b] == InRx ==> h.mem[b].RxBlock? && v.buffers == h.mem[b].buffers
    ensures Inv(h.(mem := h.mem[b := v]), l)
  {
    hide Tagged, Linked;
    forall q | q in l.at ensures Linked(h.mem[b := v], Head(h.(mem := h.mem[b := v]), q), l.at[q]) {
      HeldNotListed(l.tag, l.at[q], q, b);
      KeepLinked(h.mem, Head(h, q), l.at[q], b, v);
    }
  }

  lemma HeldNotListed(tag: seq<Key>, s: seq<nat>, k: Key, b: nat)
    requires Tagged(tag, s, k) && k != Held
    ensures b < |tag| && tag[b] == Held ==> b !in s
  {
  }

  /** The buffer list of state r passes to the application. */
  function Lent(l: Lists, r: nat): Lists
    requires InBuffers(r) in l.at
  {
    Lists(l.at[InTransfer := l.at[InBuffers(r)]][InBuffers(r) := []], Passed(l.tag, InBuffers(r), InTransfer))
  }

  function Passed(tag: seq<Key>, from: Key, to: Key): seq<Key> {
    seq(|tag|, b requires 0 <= b < |tag| => if tag[b] == from then to else tag[b])
  }

  lemma Lend(h: Heap, l: Lists, r: nat)
    requires Inv(h, l) && InBuffers(r) in l.at && l.at[InTransfer] == []
    ensures r < |h.mem| && h.mem[r].RxBlock?
    ensures Inv(SetHead(h.(lent := h.mem[r].buffers), InBuffers(r), NULL), Lent(l, r))
  {
    hide *;
    assert Partition(l) && AllTyped(h.mem, l.tag) && Links(h, l) by { UnfoldInv(h, l); }
    OwnerIsState(h, l, r);
    LendPartition(l, r);
    LendLinks(h, l, r);
    FoldInv(SetHead(h.(lent := h.mem[r].buffers), InBuffers(r), NULL), Lent(l, r));
  }

  lemma OwnerIsState(h: Heap, l: Lists, r: nat)
    requires Partition(l) && AllTyped(h.mem, l.tag) && InBuffers(r) in l.at
    ensures r < |h.mem| && h.mem[r].RxBlock? && l.tag[r] == InRx
  {
  }

  lemma LendLinks(h: Heap, l: Lists, r: nat)
    requires Partition(l) && AllTyped(h.mem, l.tag) && Links(h, l) && InBuffers(r) in l.at
    requires r < |h.mem| && h.mem[r].RxBlock?
    ensures var h' := SetHead(h.(lent := h.mem[r].buffers), InBuffers(r), NULL);
            Links(h', Lent(l, r)) && AllTyped(h'.mem, Lent(l, r).tag)
  {
    hide Tagged, Linked;
    var h1 := h.(lent := h.mem[r].buffers);
    var h' := SetHead(h1, InBuffers(r), NULL);
    HeadSet(h1, InBuffers(r), NULL);
    forall q | q in Lent(l, r).at ensures Linked(h'.mem, Head(h', q), Lent(l, r).at[q]) {
      if q == InBuffers(r) {
        LinkedEmpty(h'.mem);
      } else if q == InTransfer {
        KeepLinked(h.mem, Head(h, InBuffers(r)), l.at[InBuffers(r)], r, h'.mem[r]);
      } else {
        KeepLinked(h.mem, Head(h, q), l.at[q], r, h'.mem[r]);
      }
    }
  }

  lemma LendPartition(l: Lists, r: nat)
    requires Partition(l) && InBuffers(r) in l.at && l.at[InTransfer] == []
    ensures Partition(Lent(l, r))
  {
    var l' := Lent(l, r);
    forall q | q in l'.at ensures Tagged(l'.tag, l'.at[q], q) {
      if q == InTransfer {
        PassTo(l.tag, l.at[InBuffers(r)], InBuffers(r), InTransfer);
      } else if q == InBuffers(r) {
      } else {
        PassBy(l.tag, InBuffers(r), InTransfer, l.at[q], q);
      }
    }
  }

  lemma PassTo(tag: seq<Key>, s: seq<nat>, from: Key, to: Key)
    requires Tagged(tag, s, from) && Tagged(tag, [], to) && from != to
    ensures Tagged(Passed(tag, from, to), s, to)
  {
    NoneTagged(tag, to);
    forall b: nat | b < |tag| && Passed(tag, from, to)[b] == to ensures b in s {
      assert tag[b] == from;
    }
  }

  lemma PassBy(tag: seq<Key>, from: Key, to: Key, t: seq<nat>, q: Key)
    requires Tagged(tag, t, q) && from != q && to != q
    ensures Tagged(Passed(tag, from, to), t, q)
  {
    forall b: nat | b < |tag| && Passed(tag, from, to)[b] == q ensures b in t {
      assert tag[b] == q;
    }
  }

  // ---------------------------------------------------------------------------------------------
  // Reading the invariant

  lemma Keys(h: Heap, l: Lists)
    requires Inv(h, l)
    ensures |l.tag| == |h.mem| && InFree in l.at && InTx in l.at && InRx in l.at && InTransfer in l.at && Held !in l.at
  {
  }

  /** What a list head and the elements of the list are. */
  lemma Elements(h: Heap, l: Lists, k: Key)
    requires Inv(h, l) && k in l.at
    ensures Head(h, k) == At(l.at[k], 0) && Distinct(l.at[k]) && k != Held && |l.tag| == |h.mem|
    ensures forall j | 0 <= j < |l.at[k]| ::
            l.at[k][j] < |h.mem| && l.tag[l.at[k][j]] == k && Typed(h.mem[l.at[k][j]], k)
  {
    assert Tagged(l.tag, l.at[k], k) && Linked(h.mem, Head(h, k), l.at[k]);
  }

  lemma NextElement(h: Heap, l: Lists, k: Key, j: nat)
    requires Inv(h, l) && k in l.at && j < |l.at[k]|
    ensures l.at[k][j] < |h.mem| && h.mem[l.at[k][j]].next == At(l.at[k], j + 1)
  {
    assert Linked(h.mem, Head(h, k), l.at[k]);
  }

  lemma StateIsRxBlock(h: Heap, l: Lists, r: nat)
    requires Inv(h, l) && r < |l.tag| && l.tag[r] == InRx
    ensures r < |h.mem| && h.mem[r].RxBlock?
  {
    StateBlock(h, l, r);
  }

  /** A state block, its buffers and where it stands in the list of states. */
  lemma StateBlock(h: Heap, l: Lists, r: nat)
    requires Inv(h, l) && r < |l.tag| && l.tag[r] == InRx
    ensures |l.tag| == |h.mem| && InRx in l.at && r in l.at[InRx] && Typed(h.mem[r], InRx)
    ensures InBuffers(r) in l.at && h.mem[r].buffers == At(l.at[InBuffers(r)], 0)
  {
    assert Linked(h.mem, Head(h, InBuffers(r)), l.at[InBuffers(r)]);
    assert Tagged(l.tag, l.at[InRx], InRx);
  }
}

/** Every block of the pool is in exactly one list, so the sizes of the lists add up to the capacity. */
module Conservation {
  import opened Pool
  import opened Reception
  import opened Contents
  import opened Steps

  /** The buffers of some states, one list after the other. */
  function AllBuffers(l: Lists, states: seq<nat>): seq<nat> {
    if states == [] then [] else BuffersOf(l, states[0]) + AllBuffers(l, states[1..])
  }

  /** All blocks by list: free ones, queued frames, those lent to the application, states, and the buffers of the
      states. */
  function AllBlocks(l: Lists): seq<nat> {
    List(l, InFree) + (List(l, InTx) + (List(l, InTransfer) + (List(l, InRx) + AllBuffers(l, List(l, InRx)))))
  }

  lemma DistinctConcat(a: seq<nat>, b: seq<nat>)
    requires Distinct(a) && Distinct(b) && forall x | x in a :: x !in b
    ensures Distinct(a + b)
  {
    var s := a + b;
    forall i, j | 0 <= i < j < |s| ensures s[i] != s[j] {
      if i < |a| <= j {
        assert s[i] in a && s[j] in b;
      }
    }
  }

  /** Every element of s has tag k. */
  predicate AllOf(tag: seq<Key>, s: seq<nat>, k: Key) {
    forall b | b in s :: b < |tag| && tag[b] == k
  }

  /** Every element of s is a buffer of one of these states. */
  predicate AllBuffersOf(tag: seq<Key>, s: seq<nat>, states: seq<nat>) {
    forall b | b in s :: b < |tag| && tag[b].InBuffers? && tag[b].owner in states
  }

  lemma ListTags(h: Heap, l: Lists, k: Key)
    requires Inv(h, l) && k in l.at
    ensures List(l, k) == l.at[k] && Distinct(l.at[k]) && AllOf(l.tag, l.at[k], k)
  {
    hide Inv;
    Keys(h, l);
    Elements(h, l, k);
  }

  lemma {:induction false} BuffersTags(h: Heap, l: Lists, states: seq<nat>)
    requires Inv(h, l) && Distinct(states) && AllOf(l.tag, states, InRx)
    ensures Distinct(AllBuffers(l, states)) && AllBuffersOf(l.tag, AllBuffers(l, states), states)
  {
    hide Inv, AllOf, AllBuffersOf;
    if states == [] {
      NoBuffers(l.tag);
    } else {
      var r, rest := states[0], states[1..];
      FirstState(l.tag, states);
      StateBlock(h, l, r);
      ListTags(h, l, InBuffers(r));
      BuffersTags(h, l, rest);
      BuffersMore(l.tag, BuffersOf(l, r), AllBuffers(l, rest), states);
    }
  }

  lemma NoBuffers(tag: seq<Key>)
    ensures AllBuffersOf(tag, [], [])
  {
  }

  lemma FirstState(tag: seq<Key>, states: seq<nat>)
    requires states != [] && Distinct(states) && AllOf(tag, states, InRx)
    ensures states[0] < |tag| && tag[states[0]] == InRx && Distinct(states[1..]) && AllOf(tag, states[1..], InRx)
  {
    assert states[0] in states;
    forall b | b in states[1..] ensures b < |tag| && tag[b] == InRx {
      assert b in states;
    }
  }

  lemma BuffersMore(tag: seq<Key>, first: seq<nat>, others: seq<nat>, states: seq<nat>)
    requires states != [] && Distinct(states) && Distinct(first) && Distinct(others)
    requires AllOf(tag, first, InBuffers(states[0])) && AllBuffersOf(tag, others, states[1..])
    ensures Distinct(first + others) && AllBuffersOf(tag, first + others, states)
  {
    assert states[0] !in states[1..];
    DistinctConcat(first, others);
  }

  lemma {:induction false} BuffersCounted(h: Heap, l: Lists, states: seq<nat>, rx: seq<RxState>)
    requires |rx| == |states| && forall i | 0 <= i < |rx| :: rx[i].blocks == |BuffersOf(l, states[i])|
    ensures |states| + |AllBuffers(l, states)| == Taken(rx)
  {
    if states != [] {
      BuffersCounted(h, l, states[1..], rx[1..]);
    }
  }

  lemma {:induction false} InAllBuffers(l: Lists, states: seq<nat>, i: nat, b: nat)
    requires i < |states| && b in BuffersOf(l, states[i])
    ensures b in AllBuffers(l, states)
  {
    if i > 0 {
      InAllBuffers(l, states[1..], i - 1, b);
    }
  }

  lemma AllTags(h: Heap, l: Lists)
    requires Inv(h, l)
    ensures Distinct(AllBlocks(l)) && forall b | b in AllBlocks(l) :: b < |l.tag|
  {
    hide Inv, Distinct, List;
    Keys(h, l);
    ListTags(h, l, InFree);
    ListTags(h, l, InTx);
    ListTags(h, l, InTransfer);
    ListTags(h, l, InRx);
    var states := l.at[InRx];
    BuffersTags(h, l, states);
    var buffers := AllBuffers(l, states);
    DistinctConcat(states, buffers);
    DistinctConcat(l.at[InTransfer], states + buffers);
    DistinctConcat(l.at[InTx], l.at[InTransfer] + (states + buffers));
    DistinctConcat(l.at[InFree], l.at[InTx] + (l.at[InTransfer] + (states + buffers)));
  }

  /** With no block held, every block is listed. */
  lemma Covered(h: Heap, l: Lists, b: nat)
    requires Inv(h, l) && HeldSet(l) == {} && b < |l.tag|
    ensures b in AllBlocks(l)
  {
    TagListed(h, l, b);
    hide Inv, HeldSet;
    var k := l.tag[b];
    if k.InBuffers? {
      StateListed(h, l, k.owner);
      var i :| 0 <= i < |List(l, InRx)| && List(l, InRx)[i] == k.owner;
      InAllBuffers(l, List(l, InRx), i, b);
    }
  }

  lemma TagListed(h: Heap, l: Lists, b: nat)
    requires Inv(h, l) && HeldSet(l) == {} && b < |l.tag|
    ensures l.tag[b] != Held && b in List(l, l.tag[b])
    ensures var k := l.tag[b];
            k.InBuffers? ==> k.owner < |l.tag| && l.tag[k.owner] == InRx && List(l, k) == BuffersOf(l, k.owner)
  {
    assert l.tag[b] == Held ==> b in HeldSet(l);
    assert Tagged(l.tag, l.at[l.tag[b]], l.tag[b]);
  }

  lemma StateListed(h: Heap, l: Lists, r: nat)
    requires Inv(h, l) && r < |l.tag| && l.tag[r] == InRx
    ensures r in List(l, InRx)
  {
    StateBlock(h, l, r);
  }

  /** Between API calls and in the callback: free blocks, queued frames, states, their buffers, and the blocks lent to
      the application make up the whole pool. */
  lemma BlocksConserved(h: Heap, l: Lists)
    requires Inv(h, l) && HeldSet(l) == {}
    ensures FreeCount(l) + |TxOf(h, l)| + Taken(RxOf(h, l)) + |List(l, InTransfer)| == |h.mem|
  {
    hide Inv, HeldSet, AllBlocks, Distinct;
    Keys(h, l);
    AllTags(h, l);
    var all := AllBlocks(l);
    forall b: nat | b < |l.tag| ensures b in all {
      Covered(h, l, b);
    }
    AllCount(l.tag, all);
    RxLength(h, l);
    BuffersCounted(h, l, List(l, InRx), RxOf(h, l));
    AllSize(l);
  }

  lemma AllSize(l: Lists)
    ensures |AllBlocks(l)| == FreeCount(l) + |List(l, InTx)| + |List(l, InTransfer)|
                              + |List(l, InRx)| + |AllBuffers(l, List(l, InRx))|
  {
  }

  lemma AllCount(tag: seq<Key>, s: seq<nat>)
    requires Distinct(s) && (forall b | b in s :: b < |tag|) && forall b: nat | b < |tag| :: b in s
    ensures |s| == |tag|
  {
    assert forall i | 0 <= i < |s| :: s[i] in s;
    DistinctSize(s, |tag|);
    ElementsSize(s);
    var elements := set i | 0 <= i < |s| :: s[i];
    var below := Below(|tag|);
    forall b: nat | b in below ensures b in elements {
      assert b in s;
    }
    SubsetSize(below, elements);
  }

  /** Block b is in list k. */
  predicate Lies(l: Lists, b: nat, k: Key) {
    b in List(l, k)
  }

  /** No block is in two lists. */
  lemma ListedOnce(h: Heap, l: Lists)
    requires Inv(h, l)
    ensures forall b: nat, k, k' :: Lies(l, b, k) && Lies(l, b, k') ==> k == k'
  {
    hide Inv;
    forall b: nat, k, k' | Lies(l, b, k) && Lies(l, b, k') ensures k == k' {
      Elements(h, l, k);
      Elements(h, l, k');
    }
  }
}

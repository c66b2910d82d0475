/** From the TX queue through the controller's mailboxes to the bus: the order in which frames of one CAN ID are
    sent. */
module Bus {
  import opened CanFrames
  import opened Reception
  import opened Transmission

  // ---------------------------------------------------------------------------------------------
  // The queue is a stable priority queue

  predicate Sorted(q: seq<Frame>) {
    forall i, j | 0 <= i < j < |q| :: !IsPriorityHigher(q[i].id, q[j].id)
  }

  predicate AllWellFormed(q: seq<Frame>) {
    forall i | 0 <= i < |q| :: WellFormedId(q[i].id)
  }

  /** The frames of one CAN ID, in order. */
  function OfId(q: seq<Frame>, id: Word): seq<Frame> {
    if q == [] then [] else (if q[0].id == id then [q[0]] else []) + OfId(q[1..], id)
  }

  lemma OfIdMore(f: Frame, rest: seq<Frame>, id: Word)
    ensures OfId([f] + rest, id) == (if f.id == id then [f] else []) + OfId(rest, id)
  {
    assert ([f] + rest)[1..] == rest;
  }

  lemma {:induction false} OfIdConcat(a: seq<Frame>, b: seq<Frame>, id: Word)
    ensures OfId(a + b, id) == OfId(a, id) + OfId(b, id)
  {
    if a == [] {
      assert a + b == b;
    } else {
      hide OfId;
      var f, rest := a[0], a[1..];
      assert a == [f] + rest && a + b == [f] + (rest + b);
      OfIdConcat(rest, b, id);
      OfIdMore(f, rest, id);
      OfIdMore(f, rest + b, id);
      Regroup(if f.id == id then [f] else [], OfId(rest, id), OfId(b, id));
    }
  }

  lemma Regroup(a: seq<Frame>, b: seq<Frame>, c: seq<Frame>)
    ensures a + (b + c) == a + b + c
  {
  }

  lemma OfIdOne(f: Frame, id: Word)
    ensures OfId([f], id) == if f.id == id then [f] else []
  {
  }

  lemma {:induction false} OfIdNone(q: seq<Frame>, id: Word)
    requires forall i | 0 <= i < |q| :: q[i].id != id
    ensures OfId(q, id) == []
  {
    if q != [] {
      OfIdNone(q[1..], id);
    }
  }

  /** Inserting keeps the queue sorted, adds exactly the new frame, and puts it behind all frames of its own ID. */
  lemma InsertKeeps(q: seq<Frame>, f: Frame)
    requires Sorted(q) && AllWellFormed(q) && WellFormedId(f.id)
    ensures Sorted(Insert(q, f)) && AllWellFormed(Insert(q, f))
    ensures multiset(Insert(q, f)) == multiset(q) + multiset{f}
    ensures forall id: Word :: OfId(Insert(q, f), id) == OfId(q, id) + OfId([f], id)
  {
    hide *;
    InsertSorted(q, f);
    InsertMultiset(q, f);
    forall id: Word ensures OfId(Insert(q, f), id) == OfId(q, id) + OfId([f], id) {
      InsertOfId(q, f, id);
    }
  }

  lemma InsertMultiset(q: seq<Frame>, f: Frame)
    ensures multiset(Insert(q, f)) == multiset(q) + multiset{f}
  {
    hide IsPriorityHigher;
    var i := Position(q, f.id);
    assert q == q[..i] + q[i..];
  }

  lemma InsertOfId(q: seq<Frame>, f: Frame, id: Word)
    requires Sorted(q) && AllWellFormed(q) && WellFormedId(f.id)
    ensures OfId(Insert(q, f), id) == OfId(q, id) + OfId([f], id)
  {
    hide IsPriorityHigher, WellFormedId, OfId, Sorted;
    var i := Position(q, f.id);
    assert q == q[..i] + q[i..];
    OfIdConcat(q[..i] + [f], q[i..], id);
    OfIdConcat(q[..i], [f], id);
    OfIdConcat(q[..i], q[i..], id);
    OfIdOne(f, id);
    if id == f.id {
      NoneBehind(q, f);
      OfIdNone(q[i..], id);
    }
  }

  /** Everything behind the insertion point loses against the new frame. */
  lemma BehindLoses(q: seq<Frame>, f: Frame, k: nat)
    requires Sorted(q) && AllWellFormed(q) && WellFormedId(f.id) && Position(q, f.id) <= k < |q|
    ensures IsPriorityHigher(q[k].id, f.id) && !IsPriorityHigher(f.id, q[k].id)
  {
    hide IsPriorityHigher, WellFormedId;
    var i := Position(q, f.id);
    PriorityIsStrictTotalOrder(q[k].id, q[i].id, f.id);
    PriorityIsStrictTotalOrder(f.id, q[k].id, f.id);
  }

  lemma NoneBehind(q: seq<Frame>, f: Frame)
    requires Sorted(q) && AllWellFormed(q) && WellFormedId(f.id)
    ensures forall k | Position(q, f.id) <= k < |q| :: q[k].id != f.id
  {
    hide IsPriorityHigher, WellFormedId;
    forall k | Position(q, f.id) <= k < |q| ensures q[k].id != f.id {
      BehindLoses(q, f, k);
    }
  }

  lemma InsertShape(q: seq<Frame>, f: Frame, k: nat)
    requires k <= |q|
    ensures |Insert(q, f)| == |q| + 1
    ensures var i := Position(q, f.id);
            i <= |q| && Insert(q, f)[k] == if k < i then q[k] else if k == i then f else q[k - 1]
  {
    hide IsPriorityHigher;
  }

  lemma InsertSorted(q: seq<Frame>, f: Frame)
    requires Sorted(q) && AllWellFormed(q) && WellFormedId(f.id)
    ensures Sorted(Insert(q, f)) && AllWellFormed(Insert(q, f))
  {
    hide IsPriorityHigher, WellFormedId, Insert;
    var i, r := Position(q, f.id), Insert(q, f);
    InsertShape(q, f, 0);
    forall a | 0 <= a < |r| ensures WellFormedId(r[a].id) {
      InsertShape(q, f, a);
    }
    forall a, b | 0 <= a < b < |r| ensures !IsPriorityHigher(r[a].id, r[b].id) {
      InsertShape(q, f, a);
      InsertShape(q, f, b);
      if a == i {
        BehindLoses(q, f, b - 1);
      }
    }
  }

  lemma RestSorted(q: seq<Frame>)
    requires Sorted(q) && AllWellFormed(q) && q != []
    ensures Sorted(q[1..]) && AllWellFormed(q[1..])
  {
    hide IsPriorityHigher, WellFormedId;
  }

  // ---------------------------------------------------------------------------------------------
  // The controller

  /** The TX queue, the mailboxes and what was sent; `pushed` lists all frames in the order they were queued. */
  datatype System = System(queue: seq<Frame>, mailboxes: seq<Option<Frame>>, sent: seq<Frame>, pushed: seq<Frame>,
                           lost: bool)

  const MAILBOXES := 3

  const IDLE := System([], [None, None, None], [], [], false)

  /** Push: the application queues a frame. Load: the node moves the head of the queue to mailbox i. Reject: the driver
      refuses the head with an error and the node drops it. Complete and Abort: the controller empties mailbox i. */
  datatype Event = Push(frame: Frame) | Load(mailbox: nat) | Reject | Complete(mailbox: nat) | Abort(mailbox: nat)

  /** The frame beats every pending one on the bus. */
  predicate BeatsPending(mailboxes: seq<Option<Frame>>, f: Frame) {
    forall i | 0 <= i < |mailboxes| && mailboxes[i].Some? :: IsPriorityHigher(mailboxes[i].value.id, f.id)
  }

  predicate Enabled(s: System, e: Event) {
    match e
    case Push(f) => WellFormedId(f.id)
    case Load(i) => s.queue != [] && i < |s.mailboxes| && s.mailboxes[i].None? && BeatsPending(s.mailboxes, s.queue[0])
    case Reject => s.queue != []
    case Complete(i) => i < |s.mailboxes| && s.mailboxes[i].Some?
    case Abort(i) => i < |s.mailboxes|
  }

  function Step(s: System, e: Event): System
    requires Enabled(s, e)
  {
    match e
    case Push(f) => s.(queue := Insert(s.queue, f), pushed := s.pushed + [f])
    case Load(i) => s.(queue := s.queue[1..], mailboxes := s.mailboxes[i := Some(s.queue[0])])
    case Reject => s.(queue := s.queue[1..], lost := true)
    case Complete(i) => s.(mailboxes := s.mailboxes[i := None], sent := s.sent + [s.mailboxes[i].value])
    case Abort(i) => s.(mailboxes := s.mailboxes[i := None], lost := s.lost || s.mailboxes[i].Some?)
  }

  predicate IsRun(s: System, events: seq<Event>)
    decreases |events|
  {
    events != [] ==> Enabled(s, events[0]) && IsRun(Step(s, events[0]), events[1..])
  }

  function Run(s: System, events: seq<Event>): System
    requires IsRun(s, events)
    decreases |events|
  {
    if events == [] then s else Run(Step(s, events[0]), events[1..])
  }

  /** The pending frames, by mailbox. */
  function Pending(mailboxes: seq<Option<Frame>>): seq<Frame> {
    if mailboxes == [] then []
    else (if mailboxes[0].Some? then [mailboxes[0].value] else []) + Pending(mailboxes[1..])
  }

  /** No two pending frames have the same CAN ID. */
  predicate PendingDistinct(mailboxes: seq<Option<Frame>>) {
    forall i, j | 0 <= i < j < |mailboxes| && mailboxes[i].Some? && mailboxes[j].Some? ::
      mailboxes[i].value.id != mailboxes[j].value.id
  }

  function Front(s: seq<Frame>): seq<Frame>
    requires s != []
  {
    s[..|s| - 1]
  }

  /** a is b with some elements left out. */
  predicate SubSeq(a: seq<Frame>, b: seq<Frame>)
    decreases |b|
  {
    a == [] || (b != [] && SubSeq(if a[|a| - 1] == b[|b| - 1] then Front(a) else a, Front(b)))
  }

  /** The frames of one ID on their way: sent, pending, queued. */
  function Way(s: System, id: Word): seq<Frame> {
    OfId(s.sent, id) + OfId(Pending(s.mailboxes), id) + OfId(s.queue, id)
  }

  ghost predicate InOrder(s: System) {
    forall id: Word :: SubSeq(Way(s, id), OfId(s.pushed, id)) && (!s.lost ==> Way(s, id) == OfId(s.pushed, id))
  }

  ghost predicate Orderly(s: System) {
    && |s.mailboxes| == MAILBOXES && Sorted(s.queue) && AllWellFormed(s.queue)
    && (forall i | 0 <= i < |s.mailboxes| && s.mailboxes[i].Some? :: WellFormedId(s.mailboxes[i].value.id))
    && PendingDistinct(s.mailboxes) && InOrder(s)
  }

  // ---------------------------------------------------------------------------------------------
  // Subsequences

  lemma {:induction false} SubSeqBoth(a: seq<Frame>, b: seq<Frame>, c: seq<Frame>)
    requires SubSeq(a, b)
    ensures SubSeq(a + c, b + c)
    decreases |c|
  {
    if c == [] {
      assert a + c == a && b + c == b;
    } else {
      var x := c[|c| - 1];
      SubSeqBoth(a, b, Front(c));
      assert a + c == a + Front(c) + [x] && b + c == b + Front(c) + [x];
      SubSeqOne(a + Front(c), b + Front(c), x);
    }
  }

  lemma SubSeqOne(a: seq<Frame>, b: seq<Frame>, x: Frame)
    requires SubSeq(a, b)
    ensures SubSeq(a + [x], b + [x])
  {
    assert Front(a + [x]) == a && Front(b + [x]) == b;
  }

  lemma {:induction false} SubSeqDropLast(a: seq<Frame>, b: seq<Frame>)
    requires SubSeq(a, b) && a != []
    ensures SubSeq(Front(a), b)
    decreases |b|
  {
    if a[|a| - 1] == b[|b| - 1] {
      if Front(a) != [] {
        SubSeqDropLast(Front(a), Front(b));
      }
    } else {
      SubSeqDropLast(a, Front(b));
      if Front(a) != [] {
        SubSeqDropLast(Front(a), Front(b));
      }
    }
  }

  lemma {:induction false} SubSeqDrop(p: seq<Frame>, f: Frame, q: seq<Frame>, b: seq<Frame>)
    requires SubSeq(p + [f] + q, b)
    ensures SubSeq(p + q, b)
    decreases |b|
  {
    var a := p + [f] + q;
    if q == [] {
      SubSeqDropLast(a, b);
      assert Front(a) == p + q;
    } else {
      assert Front(a) == p + [f] + Front(q) && Front(p + q) == p + Front(q);
      if a[|a| - 1] == b[|b| - 1] {
        SubSeqDrop(p, f, Front(q), Front(b));
      } else {
        SubSeqDrop(p, f, q, Front(b));
      }
    }
  }

  // ---------------------------------------------------------------------------------------------
  // Pending frames

  lemma {:induction false} PendingNone(mb: seq<Option<Frame>>, id: Word)
    requires forall i | 0 <= i < |mb| && mb[i].Some? :: mb[i].value.id != id
    ensures OfId(Pending(mb), id) == []
  {
    if mb != [] {
      PendingNone(mb[1..], id);
      PendingFirst(mb, id);
    }
  }

  lemma PendingFirst(mb: seq<Option<Frame>>, id: Word)
    requires mb != []
    ensures OfId(Pending(mb), id) == (if mb[0].Some? then OfId([mb[0].value], id) else []) + OfId(Pending(mb[1..]), id)
  {
    if mb[0].Some? {
      OfIdConcat([mb[0].value], Pending(mb[1..]), id);
    } else {
      assert [] + Pending(mb[1..]) == Pending(mb[1..]);
    }
  }

  lemma {:induction false} PendingAt(mb: seq<Option<Frame>>, i: nat)
    requires i < |mb| && mb[i].Some? && PendingDistinct(mb)
    ensures OfId(Pending(mb), mb[i].value.id) == [mb[i].value]
  {
    var id := mb[i].value.id;
    PendingFirst(mb, id);
    if i == 0 {
      PendingNone(mb[1..], id);
    } else {
      PendingAt(mb[1..], i - 1);
    }
  }

  lemma {:induction false} PendingElsewhere(mb: seq<Option<Frame>>, i: nat, x: Option<Frame>, id: Word)
    requires i < |mb| && (mb[i].Some? ==> mb[i].value.id != id) && (x.Some? ==> x.value.id != id)
    ensures OfId(Pending(mb[i := x]), id) == OfId(Pending(mb), id)
  {
    PendingFirst(mb, id);
    PendingFirst(mb[i := x], id);
    if i == 0 {
      assert mb[i := x][1..] == mb[1..];
    } else {
      assert mb[i := x][1..] == mb[1..][i - 1 := x];
      PendingElsewhere(mb[1..], i - 1, x, id);
    }
  }

  /** Emptying a mailbox takes its frame, and nothing else, out of the pending ones. */
  lemma PendingEmptied(mb: seq<Option<Frame>>, i: nat, id: Word)
    requires i < |mb| && PendingDistinct(mb)
    ensures PendingDistinct(mb[i := None])
    ensures OfId(Pending(mb), id) ==
            (if mb[i].Some? then OfId([mb[i].value], id) else []) + OfId(Pending(mb[i := None]), id)
  {
    if mb[i].Some? && mb[i].value.id == id {
      PendingAt(mb, i);
      PendingNone(mb[i := None], id);
    } else {
      PendingElsewhere(mb, i, None, id);
    }
  }

  /** Filling an empty mailbox with a frame of an ID that is not pending. */
  lemma PendingFilled(mb: seq<Option<Frame>>, i: nat, f: Frame, id: Word)
    requires i < |mb| && mb[i].None? && PendingDistinct(mb)
    requires forall j | 0 <= j < |mb| && mb[j].Some? :: mb[j].value.id != f.id
    ensures PendingDistinct(mb[i := Some(f)])
    ensures OfId(Pending(mb[i := Some(f)]), id) == OfId(Pending(mb), id) + OfId([f], id)
  {
    if f.id == id {
      PendingAt(mb[i := Some(f)], i);
      PendingNone(mb, id);
    } else {
      PendingElsewhere(mb, i, Some(f), id);
    }
  }

  // ---------------------------------------------------------------------------------------------
  // Steps and runs

  lemma StepKeeps(s: System, e: Event)
    requires Orderly(s) && Enabled(s, e)
    ensures Orderly(Step(s, e))
  {
    hide IsPriorityHigher, WellFormedId, OfId, Pending, SubSeq, Sorted, AllWellFormed, Way, InOrder, PendingDistinct,
         BeatsPending, Insert;
    StepShape(s, e);
    forall id: Word
      ensures SubSeq(Way(Step(s, e), id), OfId(Step(s, e).pushed, id))
      ensures !Step(s, e).lost ==> Way(Step(s, e), id) == OfId(Step(s, e).pushed, id)
    {
      Ordered(s, id);
      WayStep(s, e, id);
    }
    AllOrdered(Step(s, e));
  }

  lemma Ordered(s: System, id: Word)
    requires InOrder(s)
    ensures SubSeq(Way(s, id), OfId(s.pushed, id)) && (!s.lost ==> Way(s, id) == OfId(s.pushed, id))
  {
    hide Way, SubSeq, OfId;
  }

  lemma AllOrdered(s: System)
    requires forall id: Word :: SubSeq(Way(s, id), OfId(s.pushed, id)) && (!s.lost ==> Way(s, id) == OfId(s.pushed, id))
    ensures InOrder(s)
  {
    hide Way, SubSeq, OfId;
  }

  /** A frame that beats all pending ones shares its ID with none of them. */
  lemma BeatenDiffer(mb: seq<Option<Frame>>, f: Frame)
    requires BeatsPending(mb, f) && WellFormedId(f.id)
    ensures forall i | 0 <= i < |mb| && mb[i].Some? :: mb[i].value.id != f.id
  {
    hide IsPriorityHigher, WellFormedId;
    PriorityIsStrictTotalOrder(f.id, f.id, f.id);
  }

  lemma HeadFormed(s: System)
    requires AllWellFormed(s.queue) && s.queue != []
    ensures WellFormedId(s.queue[0].id)
  {
  }

  lemma StepShape(s: System, e: Event)
    requires Orderly(s) && Enabled(s, e)
    ensures var t := Step(s, e);
            && |t.mailboxes| == MAILBOXES && Sorted(t.queue) && AllWellFormed(t.queue) && PendingDistinct(t.mailboxes)
            && (forall i | 0 <= i < |t.mailboxes| && t.mailboxes[i].Some? :: WellFormedId(t.mailboxes[i].value.id))
  {
    hide IsPriorityHigher, WellFormedId, OfId, Pending, Sorted, AllWellFormed, InOrder, BeatsPending, Insert;
    match e {
      case Push(f) => InsertSorted(s.queue, f);
      case Load(i) =>
        RestSorted(s.queue);
        HeadFormed(s);
        BeatenDiffer(s.mailboxes, s.queue[0]);
      case Reject => RestSorted(s.queue);
      case Complete(i) =>
      case Abort(i) =>
    }
  }

  lemma Concats(a: seq<Frame>, b: seq<Frame>, c: seq<Frame>, d: seq<Frame>)
    ensures a + b + (c + d) == a + (b + c) + d == a + b + c + d
    ensures (a + b) + c + d == a + (b + c) + d
    ensures a + (b + c) + d == a + (b + (c + d)) && a + (c + d) == a + c + d
  {
  }

  /** How a step moves the frames of one ID along. */
  lemma WayStep(s: System, e: Event, id: Word)
    requires Orderly(s) && Enabled(s, e)
    requires SubSeq(Way(s, id), OfId(s.pushed, id)) && (!s.lost ==> Way(s, id) == OfId(s.pushed, id))
    ensures var t := Step(s, e);
            SubSeq(Way(t, id), OfId(t.pushed, id)) && (!t.lost ==> Way(t, id) == OfId(t.pushed, id))
  {
    hide IsPriorityHigher, WellFormedId, OfId, Pending, Sorted, AllWellFormed, InOrder, BeatsPending, Insert, SubSeq,
         PendingDistinct;
    var a, b, c := OfId(s.sent, id), OfId(Pending(s.mailboxes), id), OfId(s.queue, id);
    match e {
      case Push(f) =>
        InsertOfId(s.queue, f, id);
        OfIdConcat(s.pushed, [f], id);
        SubSeqBoth(Way(s, id), OfId(s.pushed, id), OfId([f], id));
        Concats(a, b, c, OfId([f], id));
      case Load(i) =>
        var f := s.queue[0];
        HeadFormed(s);
        BeatenDiffer(s.mailboxes, f);
        PendingFilled(s.mailboxes, i, f, id);
        QueueSplit(s.queue, id);
        Concats(a, b, OfId([f], id), OfId(s.queue[1..], id));
      case Reject =>
        QueueSplit(s.queue, id);
        WayDrop(a + b, s.queue[0], OfId(s.queue[1..], id), OfId(s.pushed, id), id);
      case Complete(i) =>
        var f := s.mailboxes[i].value;
        PendingEmptied(s.mailboxes, i, id);
        OfIdConcat(s.sent, [f], id);
        Concats(a, OfId([f], id), OfId(Pending(s.mailboxes[i := None]), id), c);
      case Abort(i) =>
        PendingEmptied(s.mailboxes, i, id);
        if s.mailboxes[i].Some? {
          var rest := OfId(Pending(s.mailboxes[i := None]), id);
          var f := s.mailboxes[i].value;
          Concats(a, OfId([f], id), rest, c);
          WayDrop(a, f, rest + c, OfId(s.pushed, id), id);
        } else {
          assert s.mailboxes[i := None] == s.mailboxes;
        }
    }
  }

  lemma QueueSplit(q: seq<Frame>, id: Word)
    requires q != []
    ensures OfId(q, id) == OfId([q[0]], id) + OfId(q[1..], id)
  {
    assert q == [q[0]] + q[1..];
    OfIdConcat([q[0]], q[1..], id);
  }

  lemma WayDrop(p: seq<Frame>, f: Frame, q: seq<Frame>, b: seq<Frame>, id: Word)
    requires SubSeq(p + (OfId([f], id) + q), b)
    ensures SubSeq(p + q, b)
  {
    OfIdOne(f, id);
    if f.id == id {
      assert p + ([f] + q) == p + [f] + q;
      SubSeqDrop(p, f, q, b);
    } else {
      assert [] + q == q;
    }
  }

  /** Over every run: no two pending mailboxes hold the same CAN ID, and the frames of each ID reach the bus in the
      order they were queued; unless some were aborted or rejected, all that left the queue and the mailboxes were
      sent. */
  lemma {:induction false} RunKeeps(s: System, events: seq<Event>)
    requires Orderly(s) && IsRun(s, events)
    ensures Orderly(Run(s, events))
    decreases |events|
  {
    hide Orderly, Enabled, Step;
    if events != [] {
      StepKeeps(s, events[0]);
      RunKeeps(Step(s, events[0]), events[1..]);
    }
  }

  lemma IdleOrderly()
    ensures Orderly(IDLE)
  {
    forall id: Word ensures SubSeq(Way(IDLE, id), OfId(IDLE.pushed, id)) && Way(IDLE, id) == OfId(IDLE.pushed, id) {
      PendingNone(IDLE.mailboxes, id);
    }
  }

  lemma BusOrder(events: seq<Event>, id: Word)
    requires IsRun(IDLE, events)
    ensures var s := Run(IDLE, events);
            && PendingDistinct(s.mailboxes) && Sorted(s.queue)
            && SubSeq(OfId(s.sent, id), OfId(s.pushed, id))
            && (!s.lost ==> OfId(s.sent, id) <= OfId(s.pushed, id))
            && (!s.lost && s.queue == [] && Pending(s.mailboxes) == [] ==> OfId(s.sent, id) == OfId(s.pushed, id))
  {
    hide Step, Enabled, SubSeq, OfId, Pending, PendingDistinct, Sorted;
    IdleOrderly();
    RunKeeps(IDLE, events);
    var s := Run(IDLE, events);
    Ordered(s, id);
    Concats(OfId(s.sent, id), [], OfId(Pending(s.mailboxes), id), OfId(s.queue, id));
    SubSeqPrefix(OfId(s.sent, id), OfId(Pending(s.mailboxes), id) + OfId(s.queue, id), OfId(s.pushed, id));
    NothingOfId(id);
  }

  lemma NothingOfId(id: Word)
    ensures OfId([], id) == []
  {
  }

  lemma {:induction false} SubSeqPrefix(a: seq<Frame>, c: seq<Frame>, b: seq<Frame>)
    requires SubSeq(a + c, b)
    ensures SubSeq(a, b)
    decreases |c|
  {
    if c == [] {
      assert a + c == a;
    } else {
      SubSeqDropLast(a + c, b);
      assert Front(a + c) == a + Front(c);
      SubSeqPrefix(a, Front(c), b);
    }
  }

  lemma {:induction false} RunSnoc(s: System, events: seq<Event>, e: Event)
    requires IsRun(s, events) && Enabled(Run(s, events), e)
    ensures IsRun(s, events + [e]) && Run(s, events + [e]) == Step(Run(s, events), e)
    decreases |events|
  {
    hide Enabled, Step;
    if events == [] {
      assert [e][1..] == [];
      assert events + [e] == [e];
    } else {
      RunSnoc(Step(s, events[0]), events[1..], e);
      assert (events + [e])[1..] == events[1..] + [e];
    }
  }

  // ---------------------------------------------------------------------------------------------
  // What libcanard queues

  /** All frames of a transfer carry its identifier. */
  lemma {:induction false} FramesOfOneId(id: nat, transferId: bv8, crc: bv16, payload: seq<bv8>, index: nat,
                                         toggle: bool)
    requires id < EXT_ID_LIMIT && index <= |payload|
    ensures forall f | f in FramesFrom(id, transferId, crc, payload, index, toggle) :: f.id == id + FRAME_EFF
    decreases |payload| - index
  {
    hide TailByte, CrcBytes;
    if index < |payload| {
      FramesOfOneId(id, transferId, crc, payload, ChunkEnd(index, |payload|), !toggle);
    }
  }

  lemma TransferOfOneId(id: nat, transferId: bv8, crc: bv16, payload: seq<bv8>)
    requires id < EXT_ID_LIMIT
    ensures forall f | f in TxFrames(id, transferId, crc, payload) :: f.id == id + FRAME_EFF
  {
    hide TailByte, CrcBytes, FramesFrom;
    FramesOfOneId(id, transferId, crc, payload, 0, false);
  }

  lemma ExtendedWellFormed(id: nat)
    requires id < EXT_ID_LIMIT
    ensures WellFormedId(id + FRAME_EFF) && IsExtended(id + FRAME_EFF) && !IsRemote(id + FRAME_EFF)
    ensures !IsError(id + FRAME_EFF)
  {
  }

  /** Frames of a transfer are extended data frames, so the comparison on the queue is bus arbitration. */
  lemma TransferWellFormed(id: nat, transferId: bv8, crc: bv16, payload: seq<bv8>)
    requires id < EXT_ID_LIMIT
    ensures AllWellFormed(TxFrames(id, transferId, crc, payload))
    ensures forall f | f in TxFrames(id, transferId, crc, payload) ::
            IsExtended(f.id) && !IsRemote(f.id) && !IsError(f.id)
  {
    hide TxFrames, WellFormedId, IsExtended, IsRemote, IsError;
    ExtendedWellFormed(id);
    TransferOfOneId(id, transferId, crc, payload);
  }

  function Pushes(frames: seq<Frame>): seq<Event> {
    seq(|frames|, i requires 0 <= i < |frames| => Push(frames[i]))
  }

  /** Queueing a transfer is a run of pushes: the queue stays a stable priority queue. */
  lemma {:induction false} InsertAllIsRun(s: System, frames: seq<Frame>)
    requires AllWellFormed(frames)
    ensures IsRun(s, Pushes(frames))
    ensures Run(s, Pushes(frames)) == s.(queue := InsertAll(s.queue, frames), pushed := s.pushed + frames)
  {
    hide WellFormedId, Insert;
    if frames == [] {
      assert Pushes(frames) == [];
    } else {
      var front, f := frames[..|frames| - 1], frames[|frames| - 1];
      InsertAllIsRun(s, front);
      RunSnoc(s, Pushes(front), Push(f));
      assert Pushes(frames) == Pushes(front) + [Push(f)];
      assert frames == front + [f];
    }
  }
}

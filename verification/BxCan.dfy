/** The bxCAN driver: identifier registers, transmit mailboxes, and the node's loop that feeds them. */
module BxCan {
  import opened CanFrames
  import opened Reception
  import opened Bus

  // ---------------------------------------------------------------------------------------------
  // Registers

  const TXRQ := 1               // transmit request, bit 0 of a mailbox's identifier register

  function IdToRegister(id: Word): Word {
    (if IsExtended(id) then 8 * CleanId(id) + 4 else 0x20_0000 * (id % 0x800)) + (if IsRemote(id) then 2 else 0)
  }

  function IdFromRegister(reg: Word): Word {
    (if reg / 4 % 2 == 0 then reg / 0x20_0000 % 0x800 else reg / 8 % EXT_ID_LIMIT + FRAME_EFF)
    + (if reg / 2 % 2 == 1 then FRAME_RTR else 0)
  }

  lemma RegisterFields(id: Word)
    ensures var reg := IdToRegister(id) + TXRQ;
            && reg < 0x1_0000_0000 && (reg / 4 % 2 == 1) == IsExtended(id) && (reg / 2 % 2 == 1) == IsRemote(id)
            && (if IsExtended(id) then reg / 8 == CleanId(id) else reg / 0x20_0000 == id % 0x800)
  {
    hide IsExtended, IsRemote, CleanId;
    var rtr := if IsRemote(id) then 1 else 0;
    if IsExtended(id) {
      CleanFits(id);
      ExtendedRegister(CleanId(id), rtr);
    } else {
      BaseRegister(id % 0x800, rtr);
    }
  }

  lemma CleanFits(id: Word)
    ensures CleanId(id) < EXT_ID_LIMIT
  {
  }

  lemma ExtendedRegister(clean: nat, rtr: nat)
    requires clean < EXT_ID_LIMIT && rtr < 2
    ensures var reg := 8 * clean + 4 + 2 * rtr + TXRQ;
            reg < 0x1_0000_0000 && reg / 4 % 2 == 1 && reg / 2 % 2 == rtr && reg / 8 == clean
  {
    var reg := 8 * clean + 4 + 2 * rtr + TXRQ;
    Field(reg, 8, clean, 4 + 2 * rtr + 1);
    Field(reg, 4, 2 * clean + 1, 2 * rtr + 1);
    Field(reg, 2, 4 * clean + 2 + rtr, 1);
    Field(4 * clean + 2 + rtr, 2, 2 * clean + 1, rtr);
  }

  lemma BaseRegister(base: nat, rtr: nat)
    requires base < 0x800 && rtr < 2
    ensures var reg := 0x20_0000 * base + 2 * rtr + TXRQ;
            reg < 0x1_0000_0000 && reg / 4 % 2 == 0 && reg / 2 % 2 == rtr && reg / 0x20_0000 == base
  {
    var reg := 0x20_0000 * base + 2 * rtr + TXRQ;
    Field(reg, 0x20_0000, base, 2 * rtr + 1);
    Field(reg, 4, 0x8_0000 * base, 2 * rtr + 1);
    Field(reg, 2, 0x10_0000 * base + rtr, 1);
    Field(0x10_0000 * base + rtr, 2, 0x8_0000 * base, rtr);
  }

  /** The register keeps format, RTR and as many bits of the identifier as the format has. */
  lemma ThroughRegister(id: Word)
    ensures IdToRegister(id) + TXRQ < 0x1_0000_0000
    ensures IdFromRegister(IdToRegister(id) + TXRQ) ==
            (if IsExtended(id) then CleanId(id) + FRAME_EFF else id % 0x800) + (if IsRemote(id) then FRAME_RTR else 0)
  {
    RegisterFields(id);
    hide IdToRegister, IsExtended, IsRemote;
  }

  /** An identifier survives the way through the register exactly if a controller can send it at all. */
  lemma RegisterRoundTrip(id: Word)
    ensures IdToRegister(id) + TXRQ < 0x1_0000_0000
    ensures IdFromRegister(IdToRegister(id) + TXRQ) == id <==> WellFormedId(id)
  {
    hide IdToRegister, IdFromRegister, IsExtended, IsRemote, IsError, CleanId;
    ThroughRegister(id);
    WordFields(id);
    ReadBack(IdToRegister(id) + TXRQ);
    if CleanId(id) < 0x800 {
      LowBits(id);
    }
  }

  lemma LowBits(id: Word)
    requires CleanId(id) < 0x800
    ensures id % 0x800 == CleanId(id)
  {
    Field(id, 0x800, 0x4_0000 * (id / EXT_ID_LIMIT), CleanId(id));
  }

  /** What comes out of a register is always well formed. */
  lemma ReadBack(reg: Word)
    ensures WellFormedId(IdFromRegister(reg))
  {
    var id := IdFromRegister(reg);
    var ext := if reg / 4 % 2 == 0 then 0 else 1;
    var rtr := if reg / 2 % 2 == 1 then 1 else 0;
    var clean := if ext == 0 then reg / 0x20_0000 % 0x800 else reg / 8 % EXT_ID_LIMIT;
    Field(id, FRAME_EFF, ext, FRAME_RTR * rtr + clean);
    Field(id, FRAME_ERR, 4 * ext + 2 * rtr, clean);
  }

  /** The driver's comparison: does a win arbitration against b? */
  predicate IsFramePriorityHigher(a: Word, b: Word) {
    var cleanA, cleanB := CleanId(a), CleanId(b);
    if IsExtended(a) != IsExtended(b) then
      var arb11A := if IsExtended(a) then cleanA / 0x4_0000 else cleanA;
      var arb11B := if IsExtended(b) then cleanB / 0x4_0000 else cleanB;
      if arb11A != arb11B then arb11A < arb11B else IsExtended(b)
    else if cleanA == cleanB && IsRemote(a) != IsRemote(b) then
      IsRemote(b)
    else
      cleanA < cleanB
  }

  /** The driver, comparing with what it reads back from a mailbox, agrees with the queue and with the bus. */
  lemma DriverAgrees(a: Word, b: Word)
    requires WellFormedId(a) && WellFormedId(b)
    ensures IdToRegister(b) + TXRQ < 0x1_0000_0000
    ensures var read := IdFromRegister(IdToRegister(b) + TXRQ);
            && IsFramePriorityHigher(a, read) == IsPriorityHigher(b, a)
            && IsFramePriorityHigher(a, read) == (ArbitrationField(a) < ArbitrationField(b))
  {
    RegisterRoundTrip(b);
    hide IdToRegister, IdFromRegister, IsExtended, IsRemote, IsError, ArbitrationField;
    PriorityIsArbitration(b, a);
  }

  lemma Swapped(a: Word, b: Word)
    ensures IsFramePriorityHigher(a, b) == IsPriorityHigher(b, a)
  {
    hide IsExtended, IsRemote;
  }

  // ---------------------------------------------------------------------------------------------
  // Mailboxes

  datatype Mailbox = Mailbox(tir: Word, tdtr: nat, tdlr: nat, tdhr: nat)

  /** Four bytes in a data register, the first one least significant. */
  function Packed(data: seq<bv8>, k: nat): nat {
    Byte(data, k) + 0x100 * Byte(data, k + 1) + 0x1_0000 * Byte(data, k + 2) + 0x100_0000 * Byte(data, k + 3)
  }

  /** Bytes behind the frame's data are zero. */
  function Byte(data: seq<bv8>, k: nat): (n: nat)
    ensures n < 0x100
  {
    if k < |data| then data[k] as nat else 0
  }

  function Unpacked(w: nat, k: nat): nat {
    if k == 0 then w % 0x100 else if k == 1 then w / 0x100 % 0x100
    else if k == 2 then w / 0x1_0000 % 0x100 else w / 0x100_0000 % 0x100
  }

  lemma PackedBytes(data: seq<bv8>, k: nat)
    ensures forall j: nat | j < 4 :: Unpacked(Packed(data, k), j) == Byte(data, k + j)
  {
    hide Byte;
    var a, b, c, d := Byte(data, k), Byte(data, k + 1), Byte(data, k + 2), Byte(data, k + 3);
    var w := Packed(data, k);
    Field(w, 0x100, b + 0x100 * c + 0x1_0000 * d, a);
    Field(b + 0x100 * c + 0x1_0000 * d, 0x100, c + 0x100 * d, b);
    Field(w, 0x1_0000, c + 0x100 * d, a + 0x100 * b);
    Field(c + 0x100 * d, 0x100, d, c);
    Field(w, 0x100_0000, d, a + 0x100 * b + 0x1_0000 * c);
  }

  function LoadedMailbox(f: Frame): Mailbox {
    RegisterRoundTrip(f.id);
    Mailbox(IdToRegister(f.id) + TXRQ, |f.data|, Packed(f.data, 0), Packed(f.data, 4))
  }

  /** The frame the controller reads off a mailbox. */
  function FrameIn(m: Mailbox): Frame {
    var length := if m.tdtr <= 8 then m.tdtr else 8;
    FrameRaw.Frame(IdFromRegister(m.tir),
                   seq(length, k requires 0 <= k < length =>
                     (if k < 4 then Unpacked(m.tdlr, k) else Unpacked(m.tdhr, k - 4)) as bv8))
  }

  /** The frame the controller sends: of a base identifier of more than 11 bits, it takes the lower 11. */
  function OnBus(f: Frame): Frame {
    RegisterRoundTrip(f.id);
    f.(id := IdFromRegister(IdToRegister(f.id) + TXRQ))
  }

  /** A mailbox holds the frame it was loaded with, exactly if the identifier is one a controller can send. */
  lemma MailboxRoundTrip(f: Frame)
    ensures FrameIn(LoadedMailbox(f)) == OnBus(f)
    ensures OnBus(f) == f <==> WellFormedId(f.id)
  {
    hide IdToRegister, IdFromRegister, Packed, Unpacked, WellFormedId;
    RegisterRoundTrip(f.id);
    PackedBytes(f.data, 0);
    PackedBytes(f.data, 4);
  }

  /** What the mailbox registers hold, in numbers: the identifier register as the reference manual of the controller
      lays it out, the length, and the bytes of the frame. */
  lemma MailboxInNumbers(f: Frame)
    ensures var m := LoadedMailbox(f);
            && m.tir % 2 == 1 && m.tir / 2 % 2 == f.id / 0x4000_0000 % 2 && m.tir / 4 % 2 == f.id / 0x8000_0000
            && (f.id >= 0x8000_0000 ==> m.tir / 8 == f.id % 0x2000_0000)
            && (f.id < 0x8000_0000 ==> m.tir / 0x20_0000 == f.id % 0x800)
            && m.tdtr == |f.data|
    ensures var m, d := LoadedMailbox(f), f.data + [0, 0, 0, 0, 0, 0, 0, 0];
            && m.tdlr == d[0] as nat + 0x100 * d[1] as nat + 0x1_0000 * d[2] as nat + 0x100_0000 * d[3] as nat
            && m.tdhr == d[4] as nat + 0x100 * d[5] as nat + 0x1_0000 * d[6] as nat + 0x100_0000 * d[7] as nat
  {
    hide IdToRegister, Packed;
    RegisterRoundTrip(f.id);
    RegisterInNumbers(f.id);
    DataInNumbers(f.data);
  }

  lemma RegisterInNumbers(id: Word)
    ensures var reg := IdToRegister(id) + TXRQ;
            && reg % 2 == 1 && reg / 2 % 2 == id / 0x4000_0000 % 2 && reg / 4 % 2 == id / 0x8000_0000
            && (id >= 0x8000_0000 ==> reg / 8 == id % 0x2000_0000)
            && (id < 0x8000_0000 ==> reg / 0x20_0000 == id % 0x800)
  {
    hide IdToRegister, IsExtended, IsRemote, CleanId;
    RegisterFields(id);
    EvenRegister(id);
    FlagNumbers(id);
    OddNext(IdToRegister(id));
    Field(IdToRegister(id) + TXRQ, 2, (IdToRegister(id) + TXRQ) / 2, 1);
  }

  lemma OddNext(n: nat)
    requires n % 2 == 0
    ensures n + 1 == (n + 1) / 2 * 2 + 1
  {
  }

  lemma FlagNumbers(id: Word)
    ensures IsExtended(id) <==> id >= 0x8000_0000
    ensures id / 0x8000_0000 == (if IsExtended(id) then 1 else 0) && CleanId(id) == id % 0x2000_0000
    ensures id / 0x4000_0000 % 2 == if IsRemote(id) then 1 else 0
  {
  }

  lemma DataInNumbers(data: seq<bv8>)
    requires |data| <= 8
    ensures var d := data + [0, 0, 0, 0, 0, 0, 0, 0];
            && Packed(data, 0) == d[0] as nat + 0x100 * d[1] as nat + 0x1_0000 * d[2] as nat + 0x100_0000 * d[3] as nat
            && Packed(data, 4) == d[4] as nat + 0x100 * d[5] as nat + 0x1_0000 * d[6] as nat + 0x100_0000 * d[7] as nat
  {
    hide Byte;
    ByteIs(data, 0);
    ByteIs(data, 1);
    ByteIs(data, 2);
    ByteIs(data, 3);
    ByteIs(data, 4);
    ByteIs(data, 5);
    ByteIs(data, 6);
    ByteIs(data, 7);
  }

  lemma ByteIs(data: seq<bv8>, k: nat)
    requires k < 8
    ensures Byte(data, k) == (data + [0, 0, 0, 0, 0, 0, 0, 0])[k] as nat
  {
  }

  lemma EvenRegister(id: Word)
    ensures IdToRegister(id) % 2 == 0
  {
    hide IsExtended, IsRemote, CleanId;
    var rtr := if IsRemote(id) then 1 else 0;
    var half := (if IsExtended(id) then 4 * CleanId(id) + 2 else 0x10_0000 * (id % 0x800)) + rtr;
    Field(IdToRegister(id), 2, half, 0);
  }

  // ---------------------------------------------------------------------------------------------
  // Transmission

  const UNSUPPORTED_FRAME_FORMAT := 1003
  const NO_MAILBOX := 0xFF

  /** The mailbox the driver picks among those that are empty: the first if all are, else the last empty one. */
  function Chosen(boxes: seq<Option<Frame>>): (i: nat)
    requires |boxes| == MAILBOXES
    ensures i < MAILBOXES ==> boxes[i].None?
    ensures i >= MAILBOXES ==> boxes[0].Some? && boxes[1].Some? && boxes[2].Some?
  {
    if boxes[0].None? && boxes[1].None? && boxes[2].None? then 0
    else if boxes[2].None? then 2
    else if boxes[1].None? then 1
    else if boxes[0].None? then 0
    else NO_MAILBOX
  }

  /** The last empty one among the first n. */
  function LastEmpty(boxes: seq<Option<Frame>>, n: nat): nat
    requires n <= |boxes| == MAILBOXES
  {
    if n == 0 then NO_MAILBOX else if boxes[n - 1].None? then n - 1 else LastEmpty(boxes, n - 1)
  }

  lemma LastIsChosen(boxes: seq<Option<Frame>>)
    requires |boxes| == MAILBOXES
    ensures Chosen(boxes) == if boxes == [None, None, None] then 0 else LastEmpty(boxes, MAILBOXES)
  {
    assert LastEmpty(boxes, 0) == NO_MAILBOX;
    assert LastEmpty(boxes, 1) == if boxes[0].None? then 0 else NO_MAILBOX;
    assert LastEmpty(boxes, 2) == if boxes[1].None? then 1 else LastEmpty(boxes, 1);
  }

  /** A frame may be loaded if a mailbox is empty and no pending frame would be overtaken by it in vain. */
  predicate Loadable(boxes: seq<Option<Frame>>, f: Frame)
    requires |boxes| == MAILBOXES
  {
    Chosen(boxes) < MAILBOXES && BeatsPending(boxes, f)
  }

  class Controller {
    const mailboxes: array<Mailbox>
    var empty: seq<bool>            // the TME flags of the transmit status register
    var lastError: nat
    var busOff: bool
    var abortOnError: bool
    var abortRequested: bool
    var errorCount: nat

    constructor (abortOnError: bool)
      ensures Valid() && Boxes() == [None, None, None] && fresh(mailboxes)
    {
      mailboxes := new Mailbox[MAILBOXES](_ => Mailbox(0, 0, 0, 0));
      empty := [true, true, true];
      lastError, busOff, abortRequested, errorCount := 0, false, false, 0;
      this.abortOnError := abortOnError;
    }

    predicate Valid()
      reads this
    {
      mailboxes.Length == |empty| == MAILBOXES
    }

    /** The pending frames. */
    function Boxes(): (b: seq<Option<Frame>>)
      requires Valid()
      reads this, mailboxes
      ensures |b| == MAILBOXES
    {
      seq(MAILBOXES, i requires 0 <= i < MAILBOXES && Valid() reads this, mailboxes =>
        if empty[i] then None else Some(FrameIn(mailboxes[i])))
    }

    /** An error makes the controller abort what is pending, if it was set up that way or is off the bus. */
    method ProcessErrorStatus()
      requires Valid()
      modifies this`lastError, this`errorCount, this`abortRequested
      ensures Valid() && Boxes() == old(Boxes())
      ensures abortRequested == (old(abortRequested) || (old(lastError) != 0 && (abortOnError || busOff)))
      ensures errorCount == old(errorCount) + (if old(lastError) != 0 then 1 else 0) && lastError == 0
    {
      if lastError != 0 {
        lastError := 0;
        errorCount := errorCount + 1;
        if abortOnError || busOff {
          abortRequested := true;
        }
      }
    }

    /** Looks for an empty mailbox, and for a pending frame that the new one would overtake in vain. */
    method SeekMailbox(f: Frame) returns (txMailbox: nat)
      requires Valid()
      ensures txMailbox == if Loadable(Boxes(), f) then Chosen(Boxes()) else NO_MAILBOX
    {
      hide IsFramePriorityHigher, IsPriorityHigher, IdFromRegister, FrameIn;
      ghost var boxes := Boxes();
      LastIsChosen(boxes);
      if empty[0] && empty[1] && empty[2] {
        return 0;
      }
      txMailbox := NO_MAILBOX;
      for i := 0 to MAILBOXES
        invariant forall j | 0 <= j < i && boxes[j].Some? :: IsPriorityHigher(boxes[j].value.id, f.id)
        invariant txMailbox == LastEmpty(boxes, i)
      {
        if empty[i] {
          txMailbox := i;
        } else {
          FrameInId(mailboxes[i]);
          Swapped(f.id, FrameIn(mailboxes[i]).id);
          assert boxes[i] == Some(FrameIn(mailboxes[i]));
          if !IsFramePriorityHigher(f.id, IdFromRegister(mailboxes[i].tir)) {
            return NO_MAILBOX;
          }
        }
      }
    }

    /** Hands a frame to the controller, unless a pending one would win against it on the bus. */
    method Transmit(f: Frame) returns (result: int)
      requires Valid()
      modifies this`empty, this`lastError, this`errorCount, this`abortRequested, mailboxes
      ensures Valid()
      ensures result == if IsError(f.id) then -1003 else if Loadable(old(Boxes()), f) then 1 else 0
      ensures result == 1 ==> mailboxes[Chosen(old(Boxes()))] == LoadedMailbox(f)
      ensures Boxes() == if result == 1 then old(Boxes())[Chosen(old(Boxes())) := Some(OnBus(f))] else old(Boxes())
    {
      hide BeatsPending, FrameIn, LoadedMailbox, IsError, OnBus, Chosen;
      if IsError(f.id) {
        return -UNSUPPORTED_FRAME_FORMAT;
      }
      ProcessErrorStatus();
      ghost var boxes := Boxes();
      var txMailbox := SeekMailbox(f);
      if txMailbox == NO_MAILBOX {
        return 0;
      }
      MailboxRoundTrip(f);
      mailboxes[txMailbox] := LoadedMailbox(f);
      empty := empty[txMailbox := false];
      assert Boxes() == boxes[txMailbox := Some(OnBus(f))];
      return 1;
    }
  }

  lemma FrameInId(m: Mailbox)
    ensures FrameIn(m).id == IdFromRegister(m.tir)
  {
    hide IdFromRegister;
  }
}

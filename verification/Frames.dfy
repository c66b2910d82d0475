/** CAN frames, the UAVCAN v0 identifier layout and CAN bus arbitration. */
module CanFrames {

  /** An unsigned 32-bit word; its bit fields are taken apart with division and remainder by powers of two. */
  type Word = n: nat | n < 0x1_0000_0000

  const EXT_ID_LIMIT := 0x2000_0000   // one more than the 29-bit identifier mask
  const FRAME_EFF := 0x8000_0000      // extended frame format
  const FRAME_RTR := 0x4000_0000
  const FRAME_ERR := 0x2000_0000

  datatype FrameRaw = Frame(id: Word, data: seq<bv8>)

  /** A CAN 2.0 frame; the data length is |data|. */
  type Frame = f: FrameRaw | |f.data| <= 8 witness FrameRaw.Frame(0, [])

  /** Reads a bit field off a word that is written as a sum. */
  lemma Field(n: int, m: nat, q: int, r: nat)
    requires r < m && n == q * m + r
    ensures n / m == q && n % m == r
  {
    if n / m > q {
      Multiples(q, n / m, m);
      assert false;
    } else if n / m < q {
      Multiples(n / m, q, m);
      assert false;
    }
  }

  lemma Multiples(a: int, b: int, m: nat)
    requires a < b
    ensures a * m + m <= b * m
  {
    assert (b - a - 1) * m >= 0;
  }

  predicate IsExtended(id: Word) { id / FRAME_EFF == 1 }

  predicate IsRemote(id: Word) { id / FRAME_RTR % 2 == 1 }

  predicate IsError(id: Word) { id / FRAME_ERR % 2 == 1 }

  function CleanId(id: Word): Word { id % EXT_ID_LIMIT }

  // ---------------------------------------------------------------------------------------------
  // Transfer identification

  datatype TransferType = Response | Request | Broadcast

  /** The fields of an identifier that name a transfer. */
  datatype Header = Header(priority: nat, dataTypeId: nat, kind: TransferType, source: nat, dest: nat)

  function ExtractTransferType(id: Word): TransferType {
    if id / 0x80 % 2 == 0 then Broadcast
    else if id / 0x8000 % 2 == 1 then Request
    else Response
  }

  function ExtractDataType(id: Word): nat {
    if ExtractTransferType(id) == Broadcast then
      var dtid := id / 0x100 % 0x1_0000;
      if id % 0x80 == 0 then dtid % 4 else dtid
    else
      id / 0x1_0000 % 0x100
  }

  function HeaderOf(id: Word): Header {
    var kind := ExtractTransferType(id);
    Header(id / 0x100_0000 % 0x20, ExtractDataType(id), kind, id % 0x80,
           if kind == Broadcast then 0 else id / 0x100 % 0x80)
  }

  /** Where the fields of an identifier lie. */
  lemma HeaderInNumbers(id: Word)
    ensures HeaderOf(id) ==
            if id / 0x80 % 2 == 0 then
              Header(id / 0x100_0000 % 32, id / 0x100 % (if id % 0x80 == 0 then 4 else 0x1_0000), Broadcast,
                     id % 0x80, 0)
            else
              Header(id / 0x100_0000 % 32, id / 0x1_0000 % 0x100, if id / 0x8000 % 2 == 1 then Request else Response,
                     id % 0x80, id / 0x100 % 0x80)
  {
    LowBitsOfMany(id / 0x100);
  }

  lemma LowBitsOfMany(n: nat)
    ensures n % 0x1_0000 % 4 == n % 4
  {
    Field(n, 4, 0x4000 * (n / 0x1_0000) + n % 0x1_0000 / 4, n % 0x1_0000 % 4);
  }

  function TypeCode(kind: TransferType): nat {
    match kind case Response => 0 case Request => 1 case Broadcast => 2
  }

  /** The key of a reception state: data type, transfer type, source and destination packed into one word. */
  function MakeDescriptor(h: Header): nat {
    h.dataTypeId + 0x1_0000 * TypeCode(h.kind) + 0x4_0000 * h.source + 0x200_0000 * h.dest
  }

  function DescriptorOf(id: Word): nat {
    MakeDescriptor(HeaderOf(id))
  }

  /** Two identifiers share a descriptor exactly when they agree on everything but the priority. */
  lemma DescriptorInjective(a: Word, b: Word)
    ensures DescriptorOf(a) == DescriptorOf(b) <==>
            HeaderOf(a).(priority := 0) == HeaderOf(b).(priority := 0)
  {
    DescriptorFields(HeaderOf(a));
    DescriptorFields(HeaderOf(b));
  }

  lemma DescriptorFields(h: Header)
    requires h.dataTypeId < 0x1_0000 && h.source < 0x80 && h.dest < 0x80
    ensures var d := MakeDescriptor(h);
            && d < 0x1_0000_0000
            && d % 0x1_0000 == h.dataTypeId && d / 0x1_0000 % 4 == TypeCode(h.kind)
            && d / 0x4_0000 % 0x80 == h.source && d / 0x200_0000 == h.dest
  {
    var d, code := MakeDescriptor(h), TypeCode(h.kind);
    Field(d, 0x1_0000, code + 4 * h.source + 0x200 * h.dest, h.dataTypeId);
    Field(code + 4 * h.source + 0x200 * h.dest, 4, h.source + 0x80 * h.dest, code);
    Field(d, 0x4_0000, h.source + 0x80 * h.dest, h.dataTypeId + 0x1_0000 * code);
    Field(h.source + 0x80 * h.dest, 0x80, h.dest, h.source);
    Field(d, 0x200_0000, h.dest, h.dataTypeId + 0x1_0000 * code + 0x4_0000 * h.source);
  }

  function BroadcastId(priority: nat, dataTypeId: nat, node: nat): nat {
    0x100_0000 * priority + 0x100 * dataTypeId + node
  }

  /** `discriminator` is the even 15-bit number the payload's CRC gives; its lowest bit carries no information. */
  function AnonymousId(priority: nat, discriminator: nat, dataTypeId: nat): nat {
    0x100_0000 * priority + 0x200 * discriminator + 0x100 * dataTypeId
  }

  /** The destination's eighth bit, if there is one, falls on the bit that marks a request. */
  predicate MarkedRequest(request: bool, dest: nat) {
    request || dest >= 0x80
  }

  function ServiceId(priority: nat, dataTypeId: nat, request: bool, dest: nat, node: nat): nat {
    0x100_0000 * priority + 0x1_0000 * dataTypeId + (if MarkedRequest(request, dest) then 0x8000 else 0)
    + 0x100 * (dest % 0x80) + 0x80 + node
  }

  lemma MessageFields(id: Word, priority: nat, middle: nat, node: nat)
    requires priority < 32 && middle < 0x1_0000 && node < 0x80
    requires id == FRAME_EFF + 0x100_0000 * priority + 0x100 * middle + node
    ensures id % 0x80 == node && id / 0x80 % 2 == 0
    ensures id / 0x100 % 0x1_0000 == middle && id / 0x100_0000 % 0x20 == priority
  {
    Field(id, 0x80, 0x100_0000 + 0x2_0000 * priority + 2 * middle, node);
    Field(0x100_0000 + 0x2_0000 * priority + 2 * middle, 2, 0x80_0000 + 0x1_0000 * priority + middle, 0);
    Field(id, 0x100, 0x80_0000 + 0x1_0000 * priority + middle, node);
    Field(0x80_0000 + 0x1_0000 * priority + middle, 0x1_0000, 0x80 + priority, middle);
    Field(id, 0x100_0000, 0x80 + priority, 0x100 * middle + node);
    Field(0x80 + priority, 0x20, 4, priority);
  }

  /** A message identifier reads back as its fields; without a source, two bits of the data type are left. */
  lemma MessageHeader(id: Word, priority: nat, middle: nat, node: nat)
    requires priority < 32 && middle < 0x1_0000 && node < 0x80
    requires id == FRAME_EFF + 0x100_0000 * priority + 0x100 * middle + node
    ensures HeaderOf(id) == Header(priority, if node == 0 then middle % 4 else middle, Broadcast, node, 0)
  {
    MessageFields(id, priority, middle, node);
  }

  lemma BroadcastHeader(priority: nat, dataTypeId: nat, node: nat)
    requires priority < 32 && dataTypeId < 0x1_0000 && 0 < node < 128
    ensures var id := BroadcastId(priority, dataTypeId, node);
            id < EXT_ID_LIMIT && HeaderOf(id + FRAME_EFF) == Header(priority, dataTypeId, Broadcast, node, 0)
  {
    hide HeaderOf;
    MessageHeader(BroadcastId(priority, dataTypeId, node) + FRAME_EFF, priority, dataTypeId, node);
  }

  lemma AnonymousHeader(priority: nat, discriminator: nat, dataTypeId: nat)
    requires priority < 32 && dataTypeId < 4 && discriminator < 0x8000 && discriminator % 2 == 0
    ensures var id := AnonymousId(priority, discriminator, dataTypeId);
            id < EXT_ID_LIMIT && HeaderOf(id + FRAME_EFF) == Header(priority, dataTypeId, Broadcast, 0, 0)
  {
    hide HeaderOf;
    var half := discriminator / 2;
    assert discriminator == 2 * half;
    Field(2 * discriminator + dataTypeId, 4, half, dataTypeId);
    MessageHeader(AnonymousId(priority, discriminator, dataTypeId) + FRAME_EFF, priority,
                  2 * discriminator + dataTypeId, 0);
  }

  lemma ServiceHeader(priority: nat, dataTypeId: nat, request: bool, dest: nat, node: nat)
    requires priority < 32 && dataTypeId < 256 && dest < 256 && node < 128
    ensures var id := ServiceId(priority, dataTypeId, request, dest, node);
            && id < EXT_ID_LIMIT
            && HeaderOf(id + FRAME_EFF) ==
               Header(priority, dataTypeId, if MarkedRequest(request, dest) then Request else Response, node,
                      dest % 0x80)
  {
    var id := ServiceId(priority, dataTypeId, request, dest, node) + FRAME_EFF;
    ServiceFields(id, priority, dataTypeId, if MarkedRequest(request, dest) then 1 else 0, dest % 0x80, node);
  }

  lemma ServiceFields(id: Word, priority: nat, dataTypeId: nat, kind: nat, dest: nat, node: nat)
    requires priority < 32 && dataTypeId < 256 && kind < 2 && dest < 128 && node < 128
    requires id ==
            FRAME_EFF + 0x100_0000 * priority + 0x1_0000 * dataTypeId + 0x8000 * kind + 0x100 * dest + 0x80 + node
    ensures id % 0x80 == node && id / 0x80 % 2 == 1 && id / 0x100 % 0x80 == dest && id / 0x8000 % 2 == kind
    ensures id / 0x1_0000 % 0x100 == dataTypeId && id / 0x100_0000 % 0x20 == priority
  {
    var low := 0x8000 * kind + 0x100 * dest + 0x80 + node;
    Field(id, 0x80, 0x100_0000 + 0x2_0000 * priority + 0x200 * dataTypeId + 0x100 * kind + 2 * dest + 1, node);
    Field(0x100_0000 + 0x2_0000 * priority + 0x200 * dataTypeId + 0x100 * kind + 2 * dest + 1, 2,
          0x80_0000 + 0x1_0000 * priority + 0x100 * dataTypeId + 0x80 * kind + dest, 1);
    Field(id, 0x100, 0x80_0000 + 0x1_0000 * priority + 0x100 * dataTypeId + 0x80 * kind + dest, 0x80 + node);
    Field(0x80_0000 + 0x1_0000 * priority + 0x100 * dataTypeId + 0x80 * kind + dest, 0x80,
          0x1_0000 + 0x200 * priority + 2 * dataTypeId + kind, dest);
    Field(id, 0x8000, 0x1_0000 + 0x200 * priority + 2 * dataTypeId + kind, 0x100 * dest + 0x80 + node);
    Field(0x1_0000 + 0x200 * priority + 2 * dataTypeId + kind, 2, 0x8000 + 0x100 * priority + dataTypeId, kind);
    Field(id, 0x1_0000, 0x8000 + 0x100 * priority + dataTypeId, low);
    Field(0x8000 + 0x100 * priority + dataTypeId, 0x100, 0x80 + priority, dataTypeId);
    Field(id, 0x100_0000, 0x80 + priority, 0x1_0000 * dataTypeId + low);
    Field(0x80 + priority, 0x20, 4, priority);
  }

  // ---------------------------------------------------------------------------------------------
  // Arbitration

  /** libcanard's comparison: does `id` win arbitration against `rhs`? */
  predicate IsPriorityHigher(rhs: Word, id: Word) {
    var cleanId, rhsCleanId := CleanId(id), CleanId(rhs);
    var ext, rhsExt := IsExtended(id), IsExtended(rhs);
    var rtr, rhsRtr := IsRemote(id), IsRemote(rhs);
    if ext != rhsExt then
      var arb11 := if ext then cleanId / 0x4_0000 else cleanId;
      var rhsArb11 := if rhsExt then rhsCleanId / 0x4_0000 else rhsCleanId;
      if arb11 != rhsArb11 then arb11 < rhsArb11 else rhsExt
    else if cleanId == rhsCleanId && rtr != rhsRtr then
      rhsRtr
    else
      cleanId < rhsCleanId
  }

  /** Identifiers a controller can put on the wire: no error flag, 11 bits in the standard format. */
  predicate WellFormedId(id: Word) {
    !IsError(id) && (!IsExtended(id) ==> CleanId(id) < 0x800)
  }

  /** The arbitration field as ISO 11898-1 sends it, first bit most significant: 11 base bits, then RTR and IDE in
      the standard format, or SRR, IDE, 18 extension bits and RTR in the extended one. A dominant bit is 0 and wins. */
  function ArbitrationField(id: Word): nat {
    var rtr := if IsRemote(id) then 1 else 0;
    if IsExtended(id) then
      0x20_0000 * (CleanId(id) / 0x4_0000) + 0x10_0000 + 0x8_0000 + 2 * (CleanId(id) % 0x4_0000) + rtr
    else
      0x20_0000 * CleanId(id) + 0x10_0000 * rtr
  }

  /** The comparison is bus arbitration: the numerically smaller arbitration field wins. */
  lemma PriorityIsArbitration(rhs: Word, id: Word)
    requires WellFormedId(rhs) && WellFormedId(id)
    ensures IsPriorityHigher(rhs, id) <==> ArbitrationField(id) < ArbitrationField(rhs)
  {
    hide IsExtended, IsRemote, IsError, CleanId;
    Parts(CleanId(id));
    Parts(CleanId(rhs));
  }

  /** Who wins, in identifiers: the smaller one within a format; across formats the smaller 11-bit part, and the base
      format if those are equal; and the data frame against the remote frame with the same identifier. */
  lemma PriorityInNumbers(a: nat, b: nat, base: nat)
    requires a < 0x2000_0000 && b < 0x2000_0000 && base < 0x800
    ensures IsPriorityHigher(0x8000_0000 + b, 0x8000_0000 + a) <==> a < b
    ensures b < 0x800 ==> (IsPriorityHigher(b, base) <==> base < b)
    ensures IsPriorityHigher(0x8000_0000 + b, base) <==> base <= b / 0x4_0000
    ensures IsPriorityHigher(base, 0x8000_0000 + a) <==> a / 0x4_0000 < base
    ensures IsPriorityHigher(0xC000_0000 + a, 0x8000_0000 + a) && IsPriorityHigher(0x4000_0000 + base, base)
  {
    hide IsExtended, IsRemote, CleanId;
    FlagsOf(a);
    FlagsOf(b);
    FlagsOf(base);
  }

  lemma FlagsOf(clean: nat)
    requires clean < 0x2000_0000
    ensures CleanId(clean) == clean && !IsExtended(clean) && !IsRemote(clean)
    ensures CleanId(0x8000_0000 + clean) == clean && IsExtended(0x8000_0000 + clean) && !IsRemote(0x8000_0000 + clean)
    ensures CleanId(0xC000_0000 + clean) == clean && IsExtended(0xC000_0000 + clean) && IsRemote(0xC000_0000 + clean)
    ensures CleanId(0x4000_0000 + clean) == clean && !IsExtended(0x4000_0000 + clean) && IsRemote(0x4000_0000 + clean)
  {
  }

  /** The 11 base bits and the 18 extension bits. */
  lemma Parts(clean: nat)
    ensures clean == 0x4_0000 * (clean / 0x4_0000) + clean % 0x4_0000 && clean % 0x4_0000 < 0x4_0000
  {
  }

  lemma ArbitrationFieldInjective(a: Word, b: Word)
    requires WellFormedId(a) && WellFormedId(b)
    ensures ArbitrationField(a) == ArbitrationField(b) <==> a == b
  {
    FieldsOfArbitration(a);
    FieldsOfArbitration(b);
    WordFields(a);
    WordFields(b);
  }

  /** The bits of the arbitration field determine format, RTR and identifier. */
  lemma FieldsOfArbitration(id: Word)
    requires WellFormedId(id)
    ensures var f := ArbitrationField(id); var clean := CleanId(id);
            && IsExtended(id) == (f / 0x8_0000 % 2 == 1)
            && IsRemote(id) == (if IsExtended(id) then f % 2 == 1 else f / 0x10_0000 % 2 == 1)
            && clean == (if IsExtended(id) then 0x4_0000 * (f / 0x20_0000) + f / 2 % 0x4_0000 else f / 0x20_0000)
  {
    var f, clean := ArbitrationField(id), CleanId(id);
    var rtr := if IsRemote(id) then 1 else 0;
    if IsExtended(id) {
      ExtendedField(f, clean / 0x4_0000, clean % 0x4_0000, rtr);
    } else {
      Field(f, 0x8_0000, 4 * clean + 2 * rtr, 0);
      Field(f, 0x10_0000, 2 * clean + rtr, 0);
      Field(f, 0x20_0000, clean, 0x10_0000 * rtr);
    }
  }

  lemma ExtendedField(f: nat, hi: nat, lo: nat, rtr: nat)
    requires lo < 0x4_0000 && rtr < 2 && f == 0x20_0000 * hi + 0x18_0000 + 2 * lo + rtr
    ensures f % 2 == rtr && f / 2 % 0x4_0000 == lo && f / 0x8_0000 % 2 == 1 && f / 0x20_0000 == hi
  {
    Field(f, 2, 0x10_0000 * hi + 0xC_0000 + lo, rtr);
    Field(0x10_0000 * hi + 0xC_0000 + lo, 0x4_0000, 4 * hi + 3, lo);
    Field(f, 0x8_0000, 4 * hi + 3, 2 * lo + rtr);
    Field(4 * hi + 3, 2, 2 * hi + 1, 1);
    Field(f, 0x20_0000, hi, 0x18_0000 + 2 * lo + rtr);
  }

  lemma WordFields(id: Word)
    ensures id == CleanId(id) + (if IsExtended(id) then FRAME_EFF else 0) + (if IsRemote(id) then FRAME_RTR else 0)
                  + (if IsError(id) then FRAME_ERR else 0)
  {
    assert id / FRAME_RTR == 2 * (id / FRAME_EFF) + id / FRAME_RTR % 2;
    assert id / FRAME_ERR == 2 * (id / FRAME_RTR) + id / FRAME_ERR % 2;
  }

  /** Hence the comparison is a strict total order on well-formed identifiers. */
  lemma PriorityIsStrictTotalOrder(a: Word, b: Word, c: Word)
    requires WellFormedId(a) && WellFormedId(b) && WellFormedId(c)
    ensures !IsPriorityHigher(a, a)
    ensures IsPriorityHigher(a, b) && IsPriorityHigher(b, c) ==> IsPriorityHigher(a, c)
    ensures a == b || IsPriorityHigher(a, b) || IsPriorityHigher(b, a)
  {
    PriorityIsArbitration(a, a);
    PriorityIsArbitration(a, b);
    PriorityIsArbitration(b, a);
    PriorityIsArbitration(b, c);
    PriorityIsArbitration(a, c);
    ArbitrationFieldInjective(a, b);
  }
}

/** The application descriptor inside a firmware image, and which offsets of the storage hold a valid application. */
module AppImage {
  import opened CanFrames
  import opened Reception
  import Scalars
  import Crc = TransferCrc
  import Crc64

  const SIGNATURE_SIZE := 8
  const CRC_SIZE := 8
  const DESCRIPTOR_SIZE := 32
  const PADDING := 8
  const STEP := 8

  /** "APDesc00" */
  const SIGNATURE: seq<bv8> := [0x41, 0x50, 0x44, 0x65, 0x73, 0x63, 0x30, 0x30]

  datatype AppInfo = AppInfo(imageCrc: bv64, imageSize: nat, vcsCommit: nat, majorVersion: bv8, minorVersion: bv8)

  datatype Descriptor = Descriptor(signature: seq<bv8>, info: AppInfo, reserved: seq<bv8>)

  predicate WellSized(d: Descriptor) {
    && |d.signature| == SIGNATURE_SIZE && |d.reserved| == 6
    && d.info.imageSize < 0x1_0000_0000 && d.info.vcsCommit < 0x1_0000_0000
  }

  // ---------------------------------------------------------------------------------------------
  // Layout: little endian, packed

  function ToNat(b: bv8): nat {
    b as nat
  }

  /** The byte of value n, counted up from 0: converting numbers to bit vectors makes round trips hard to prove. */
  function ToByte(n: nat): bv8 {
    if n == 0 then 0 else ToByte(n - 1) + 1
  }

  lemma Successor(b: bv8)
    requires b != 0xFF
    ensures ToNat(b + 1) == ToNat(b) + 1
  {
  }

  lemma Extremes()
    ensures ToNat(0) == 0 && ToNat(0xFF) == 0xFF
  {
  }

  lemma {:induction false} ByteNat(n: nat)
    requires n < 0x100
    ensures ToNat(ToByte(n)) == n
  {
    hide ToNat;
    Extremes();
    if n > 0 {
      ByteNat(n - 1);
      Successor(ToByte(n - 1));
    }
  }

  lemma ByteBound(b: bv8)
    ensures ToNat(b) < 0x100
  {
  }

  lemma SameByte(a: bv8, b: bv8)
    requires ToNat(a) == ToNat(b)
    ensures a == b
  {
  }

  lemma NatByte(b: bv8)
    ensures ToByte(ToNat(b)) == b
  {
    hide ToByte, ToNat;
    ByteBound(b);
    ByteNat(ToNat(b));
    SameByte(ToByte(ToNat(b)), b);
  }

  /** One more than the greatest number of k bytes. */
  function Limit(k: nat): nat {
    if k == 0 then 1 else 0x100 * Limit(k - 1)
  }

  /** A number in k bytes, least significant first. */
  function WordBytes(n: nat, k: nat): (b: seq<bv8>)
    ensures |b| == k
  {
    if k == 0 then [] else [ToByte(n % 0x100)] + WordBytes(n / 0x100, k - 1)
  }

  function WordOf(b: seq<bv8>): nat {
    if b == [] then 0 else ToNat(b[0]) + 0x100 * WordOf(b[1..])
  }

  lemma {:induction false} WordRoundTrip(n: nat, k: nat)
    requires n < Limit(k)
    ensures WordOf(WordBytes(n, k)) == n
  {
    hide ToByte, ToNat;
    if k > 0 {
      ByteNat(n % 0x100);
      WordRoundTrip(n / 0x100, k - 1);
      assert WordBytes(n, k)[1..] == WordBytes(n / 0x100, k - 1);
    }
  }

  lemma {:induction false} BytesRoundTrip(b: seq<bv8>)
    ensures WordBytes(WordOf(b), |b|) == b
  {
    hide ToByte, ToNat;
    if b != [] {
      ByteBound(b[0]);
      NatByte(b[0]);
      Field(WordOf(b), 0x100, WordOf(b[1..]), ToNat(b[0]));
      BytesRoundTrip(b[1..]);
    }
  }

  lemma {:induction false} WordBound(b: seq<bv8>)
    ensures WordOf(b) < Limit(|b|)
  {
    hide ToNat;
    if b != [] {
      ByteBound(b[0]);
      WordBound(b[1..]);
    }
  }

  lemma FourBytes()
    ensures Limit(4) == 0x1_0000_0000
  {
    assert Limit(1) == 0x100 && Limit(2) == 0x1_0000 && Limit(3) == 0x100_0000;
  }

  function Pack(d: Descriptor): (b: seq<bv8>)
    requires WellSized(d)
    ensures |b| == DESCRIPTOR_SIZE
  {
    d.signature + Crc.SignatureBytes(d.info.imageCrc) + WordBytes(d.info.imageSize, 4) + WordBytes(d.info.vcsCommit, 4)
    + [d.info.majorVersion, d.info.minorVersion] + d.reserved
  }

  function Unpack(b: seq<bv8>): (d: Descriptor)
    requires |b| == DESCRIPTOR_SIZE
    ensures WellSized(d)
  {
    WordBound(b[16..20]);
    WordBound(b[20..24]);
    FourBytes();
    Descriptor(b[0..8], AppInfo(Scalars.Assemble(b[8..16]), WordOf(b[16..20]), WordOf(b[20..24]), b[24], b[25]),
               b[26..32])
  }

  /** The descriptor unpacks to the values packed, and packs to the bytes unpacked. */
  lemma UnpackPack(d: Descriptor)
    requires WellSized(d)
    ensures Unpack(Pack(d)) == d
  {
    hide WordBytes, WordOf, Crc.SignatureBytes, Scalars.Assemble;
    PackParts(d);
    Scalars.AssembleBytes(d.info.imageCrc);
    FourBytes();
    WordRoundTrip(d.info.imageSize, 4);
    WordRoundTrip(d.info.vcsCommit, 4);
  }

  lemma PackUnpack(b: seq<bv8>)
    requires |b| == DESCRIPTOR_SIZE
    ensures Pack(Unpack(b)) == b
  {
    hide WordBytes, WordOf, Crc.SignatureBytes, Scalars.Assemble;
    var d := Unpack(b);
    BytesOfCrc(b[8..16]);
    BytesRoundTrip(b[16..20]);
    BytesRoundTrip(b[20..24]);
    assert b == b[0..8] + b[8..16] + b[16..20] + b[20..24] + [b[24], b[25]] + b[26..32];
  }

  lemma BytesOfCrc(b: seq<bv8>)
    requires |b| == 8
    ensures Crc.SignatureBytes(Scalars.Assemble(b)) == b
  {
    hide Crc.ByteOf, Scalars.Assemble;
    forall k: nat | k < 8 ensures Crc.SignatureBytes(Scalars.Assemble(b))[k] == b[k] {
      Scalars.AssembledByte(b, k);
    }
  }

  /** Where the fields lie. */
  lemma PackParts(d: Descriptor)
    requires WellSized(d)
    ensures var b := Pack(d);
            && b[0..8] == d.signature && b[8..16] == Crc.SignatureBytes(d.info.imageCrc)
            && b[16..20] == WordBytes(d.info.imageSize, 4) && b[20..24] == WordBytes(d.info.vcsCommit, 4)
            && b[24] == d.info.majorVersion && b[25] == d.info.minorVersion && b[26..32] == d.reserved
  {
    hide WordBytes, Crc.SignatureBytes;
  }

  /** Four bytes as a number, least significant first. */
  lemma WordNumber(b: seq<bv8>)
    requires |b| == 4
    ensures WordOf(b) == b[0] as nat + 0x100 * b[1] as nat + 0x1_0000 * b[2] as nat + 0x100_0000 * b[3] as nat
  {
    assert WordOf(b) == ToNat(b[0]) + 0x100 * WordOf(b[1..]) && WordOf(b[1..]) == ToNat(b[1]) + 0x100 * WordOf(b[2..]);
    assert b[2..][1..] == b[3..];
    assert WordOf(b[2..]) == ToNat(b[2]) + 0x100 * WordOf(b[3..]) && WordOf(b[3..]) == ToNat(b[3]) + 0x100 * WordOf([]);
  }

  /** The fields of a descriptor, by its bytes. */
  lemma InBytes(b: seq<bv8>)
    requires |b| == 32
    ensures var d := Unpack(b);
            && d.signature == b[..8] && Crc.SignatureBytes(d.info.imageCrc) == b[8..16] && d.reserved == b[26..]
            && d.info.imageSize ==
               b[16] as nat + 0x100 * b[17] as nat + 0x1_0000 * b[18] as nat + 0x100_0000 * b[19] as nat
            && d.info.vcsCommit ==
               b[20] as nat + 0x100 * b[21] as nat + 0x1_0000 * b[22] as nat + 0x100_0000 * b[23] as nat
            && d.info.majorVersion == b[24] && d.info.minorVersion == b[25]
  {
    hide WordOf, Scalars.Assemble, Crc.SignatureBytes;
    WordNumber(b[16..20]);
    WordNumber(b[20..24]);
    BytesOfCrc(b[8..16]);
  }

  // ---------------------------------------------------------------------------------------------
  // A valid application

  function Zeros(): seq<bv8> { [0, 0, 0, 0, 0, 0, 0, 0] }

  /** As much of s from `from` to `to` as there is. */
  function Clip(s: seq<bv8>, from: nat, to: nat): seq<bv8> {
    var end := if to < |s| then to else |s|;
    if from < end then s[from..end] else []
  }

  /** The bytes the image's CRC is made of: everything up to the CRC field, zeros for the field, and the rest. */
  function CrcInput(storage: seq<bv8>, offset: nat, size: nat): seq<bv8> {
    var crcOffset := offset + SIGNATURE_SIZE;
    Clip(storage, 0, crcOffset) + Zeros() + Clip(storage, crcOffset + CRC_SIZE, size)
  }

  predicate Valid(d: Descriptor, maxSize: nat) {
    d.signature == SIGNATURE && 0 < d.info.imageSize <= maxSize && d.info.imageSize % PADDING == 0
  }

  function DescriptorAt(storage: seq<bv8>, offset: nat): Descriptor
    requires offset + DESCRIPTOR_SIZE <= |storage|
  {
    Unpack(storage[offset..offset + DESCRIPTOR_SIZE])
  }

  /** The bootloader takes what lies at this offset for a valid application. */
  predicate Accepts(storage: seq<bv8>, maxSize: nat, offset: nat) {
    && offset + DESCRIPTOR_SIZE <= |storage|
    && var d := DescriptorAt(storage, offset);
       Valid(d, maxSize) && Crc64.Crc(CrcInput(storage, offset, d.info.imageSize)) == d.info.imageCrc
  }

  /** What the bootloader accepts, by the bytes of the storage: "APDesc00", a size that is a positive multiple of 8
      within the limit, and the CRC of everything but the CRC field, least significant byte first. */
  lemma AcceptsInBytes(storage: seq<bv8>, maxSize: nat, offset: nat)
    requires offset + 32 <= |storage|
    ensures var b := storage[offset..offset + 32];
            var size := b[16] as nat + 0x100 * b[17] as nat + 0x1_0000 * b[18] as nat + 0x100_0000 * b[19] as nat;
            var end := if size < |storage| then size else |storage|;
            var rest := if offset + 16 < end then storage[offset + 16..end] else [];
            Accepts(storage, maxSize, offset) <==>
              && b[..8] == [0x41, 0x50, 0x44, 0x65, 0x73, 0x63, 0x30, 0x30] && 0 < size <= maxSize && size % 8 == 0
              && b[8..16] == Crc.SignatureBytes(Crc64.Crc(storage[..offset + 8] + [0, 0, 0, 0, 0, 0, 0, 0] + rest))
  {
    hide Unpack, Crc.SignatureBytes, Crc64.Crc;
    var d := DescriptorAt(storage, offset);
    InBytes(storage[offset..offset + 32]);
    assert Clip(storage, 0, offset + 8) == storage[..offset + 8];
    Scalars.AssembleBytes(d.info.imageCrc);
    Scalars.AssembleBytes(Crc64.Crc(CrcInput(storage, offset, d.info.imageSize)));
  }

  /** d is the descriptor at the least offset, a multiple of 8, that the bootloader accepts. */
  ghost predicate FoundAt(storage: seq<bv8>, maxSize: nat, o: nat, d: Descriptor) {
    && o % STEP == 0 && Accepts(storage, maxSize, o) && d == DescriptorAt(storage, o)
    && forall p: nat | p < o && p % STEP == 0 :: !Accepts(storage, maxSize, p)
  }

  /** What a search of the storage must find. */
  ghost predicate Locates(storage: seq<bv8>, maxSize: nat, found: Option<Descriptor>) {
    match found
    case None => forall o: nat | o % STEP == 0 :: !Accepts(storage, maxSize, o)
    case Some(d) => exists o: nat :: FoundAt(storage, maxSize, o, d)
  }

  /** There is one answer. */
  lemma LocatesUnique(storage: seq<bv8>, maxSize: nat, a: Option<Descriptor>, b: Option<Descriptor>)
    requires Locates(storage, maxSize, a) && Locates(storage, maxSize, b)
    ensures a == b
  {
    hide Unpack, Valid, CrcInput;
    if a.Some? && b.Some? {
      var o: nat :| FoundAt(storage, maxSize, o, a.value);
      var p: nat :| FoundAt(storage, maxSize, p, b.value);
      assert o == p;
    }
  }

  /** The search, from some offset on. It ends where no descriptor fits any more. */
  function Search(storage: seq<bv8>, maxSize: nat, offset: nat): Option<Descriptor>
    decreases |storage| - offset
  {
    if offset + DESCRIPTOR_SIZE > |storage| then None
    else if Accepts(storage, maxSize, offset) then Some(DescriptorAt(storage, offset))
    else Search(storage, maxSize, offset + STEP)
  }

  function Located(storage: seq<bv8>, maxSize: nat): Option<Descriptor> {
    Search(storage, maxSize, 0)
  }

  lemma {:induction false} SearchLocates(storage: seq<bv8>, maxSize: nat, offset: nat)
    requires offset % STEP == 0 && forall p: nat | p < offset && p % STEP == 0 :: !Accepts(storage, maxSize, p)
    ensures Locates(storage, maxSize, Search(storage, maxSize, offset))
    decreases |storage| - offset
  {
    hide Unpack, Valid, CrcInput;
    if offset + DESCRIPTOR_SIZE <= |storage| {
      if Accepts(storage, maxSize, offset) {
        assert FoundAt(storage, maxSize, offset, DescriptorAt(storage, offset));
      } else {
        SearchLocates(storage, maxSize, offset + STEP);
      }
    }
  }

  /** The search finds the descriptor at the least offset, a multiple of 8, whose signature, size and CRC are right; and
      it fails exactly if there is none. */
  lemma LocatedIs(storage: seq<bv8>, maxSize: nat, d: Descriptor)
    ensures Located(storage, maxSize) == Some(d) <==> exists o: nat :: FoundAt(storage, maxSize, o, d)
    ensures Located(storage, maxSize) == None <==> forall o: nat | o % STEP == 0 :: !Accepts(storage, maxSize, o)
  {
    hide Unpack, Valid, CrcInput, Search, Accepts;
    SearchLocates(storage, maxSize, 0);
    var found := Located(storage, maxSize);
    if exists o: nat :: FoundAt(storage, maxSize, o, d) {
      assert Locates(storage, maxSize, Some(d));
      LocatesUnique(storage, maxSize, found, Some(d));
    }
    if forall o: nat | o % STEP == 0 :: !Accepts(storage, maxSize, o) {
      assert Locates(storage, maxSize, None);
      LocatesUnique(storage, maxSize, found, None);
    }
  }
}

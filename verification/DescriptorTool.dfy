/** The tool that patches size and CRC into the descriptor of a firmware image, and when the bootloader accepts the
    result. */
module DescriptorTool {
  import opened Reception
  import opened AppImage
  import Bootloader
  import Crc64
  import Scalars
  import Crc = TransferCrc

  const RESERVED: seq<bv8> := [0xFF, 0xFF, 0xFF, 0xFF, 0xFF, 0xFF]

  // ---------------------------------------------------------------------------------------------
  // What the tool computes

  function PaddingOf(n: nat): (p: nat)
    ensures p < PADDING && (n + p) % PADDING == 0
  {
    if n % PADDING != 0 then PADDING - n % PADDING else 0
  }

  function Ones(n: nat): (s: seq<bv8>)
    ensures |s| == n
  {
    seq(n, _ => 0xFF)
  }

  /** A descriptor not yet filled in, or filled in before. */
  predicate Plausible(d: Descriptor) {
    && d.signature == SIGNATURE && d.reserved == RESERVED
    && ((d.info.imageCrc == 0 && d.info.imageSize == 0) || (d.info.imageCrc != 0 && d.info.imageSize > 0))
  }

  predicate Matches(content: seq<bv8>, o: nat) {
    o + DESCRIPTOR_SIZE <= |content| && Plausible(DescriptorAt(content, o))
  }

  /** A match, by its bytes. */
  lemma MatchesInBytes(content: seq<bv8>, o: nat)
    requires o + 32 <= |content|
    ensures var b := content[o..o + 32];
            Matches(content, o) <==>
              && b[..8] == [0x41, 0x50, 0x44, 0x65, 0x73, 0x63, 0x30, 0x30]
              && b[26..] == [0xFF, 0xFF, 0xFF, 0xFF, 0xFF, 0xFF]
              && (b[8..16] == [0, 0, 0, 0, 0, 0, 0, 0] <==> b[16..20] == [0, 0, 0, 0])
  {
    hide Unpack, Crc.SignatureBytes, Scalars.Assemble;
    var b := content[o..o + 32];
    InBytes(b);
    NoCrc(Unpack(b).info.imageCrc);
    assert b[16..20] == [b[16], b[17], b[18], b[19]];
  }

  lemma NoCrc(crc: bv64)
    ensures Crc.SignatureBytes(crc) == [0, 0, 0, 0, 0, 0, 0, 0] <==> crc == 0
  {
    hide Crc.SignatureBytes, Scalars.Assemble;
    Scalars.AssembleBytes(crc);
    Scalars.AssembleBytes(0);
    ZeroBytes();
  }

  lemma ZeroBytes()
    ensures Crc.SignatureBytes(0) == [0, 0, 0, 0, 0, 0, 0, 0]
  {
  }

  /** The first match from `from` on. The search stops short of the last place of the padded image. */
  function FirstMatch(content: seq<bv8>, from: nat): (o: Option<nat>)
    ensures o.Some? ==> from <= o.value && Matches(content, o.value)
    decreases |content| + PADDING - from
  {
    if from + DESCRIPTOR_SIZE >= |content| + PaddingOf(|content|) then None
    else if Matches(content, from) then Some(from)
    else FirstMatch(content, from + 1)
  }

  function Placed(content: seq<bv8>, o: nat, d: Descriptor): (c: seq<bv8>)
    requires o + DESCRIPTOR_SIZE <= |content| && WellSized(d)
    ensures |c| == |content|
  {
    content[..o] + Pack(d) + content[o + DESCRIPTOR_SIZE..]
  }

  /** The descriptor with the size of the padded image, and no CRC yet. */
  function Sized(content: seq<bv8>, o: nat): (d: Descriptor)
    requires o + DESCRIPTOR_SIZE <= |content| && |content| + PADDING <= 0x1_0000_0000
    ensures WellSized(d)
  {
    var d := DescriptorAt(content, o);
    d.(info := d.info.(imageSize := |content| + PaddingOf(|content|), imageCrc := 0))
  }

  /** The contents after the first of the tool's two writes. */
  function FirstWrite(content: seq<bv8>, o: nat): (c: seq<bv8>)
    requires o + DESCRIPTOR_SIZE <= |content| && |content| + PADDING <= 0x1_0000_0000
    ensures |c| == |content|
  {
    Placed(content, o, Sized(content, o))
  }

  function WithCrc(d: Descriptor, crc: bv64): (e: Descriptor)
    ensures WellSized(d) ==> WellSized(e)
  {
    d.(info := d.info.(imageCrc := crc))
  }

  /** The bytes the tool's CRC is made of. */
  function Summed(content: seq<bv8>, o: nat): seq<bv8>
    requires o + DESCRIPTOR_SIZE <= |content|
  {
    content[..o + 8] + Zeros() + content[o + 16..] + Ones(PaddingOf(|content|))
  }

  /** Where the tool thinks the descriptor is once it has written it without CRC: it remembers the offset, but takes
      offset 0 for none and searches again. */
  function SecondOffset(content: seq<bv8>, o: nat): (p: nat)
    requires o + DESCRIPTOR_SIZE <= |content|
    ensures p + DESCRIPTOR_SIZE <= |content|
  {
    if o != 0 then o
    else
      match FirstMatch(content, 0)
      case Some(p) => p
      case None => 0
  }

  function Summary(content: seq<bv8>, p: nat): bv64
    requires p + DESCRIPTOR_SIZE <= |content|
  {
    Crc64.Crc(Summed(content, p))
  }

  /** The contents after both writes. */
  function Patched(content: seq<bv8>, o: nat): (c: seq<bv8>)
    requires o + DESCRIPTOR_SIZE <= |content| && |content| + PADDING <= 0x1_0000_0000
    ensures |c| == |content|
  {
    var c1 := FirstWrite(content, o);
    var p := SecondOffset(c1, o);
    Placed(c1, p, WithCrc(Sized(content, o), Summary(c1, p)))
  }

  /** The file the tool writes. */
  function Output(content: seq<bv8>, o: nat): seq<bv8>
    requires o + DESCRIPTOR_SIZE <= |content| && |content| + PADDING <= 0x1_0000_0000
  {
    Patched(content, o) + Ones(PaddingOf(|content|))
  }

  // ---------------------------------------------------------------------------------------------
  // The tool

  class FirmwareImage {
    var contents: seq<bv8>
    var padding: nat
    var length: Option<nat>
    var descriptorOffset: Option<nat>
    var descriptor: Option<Descriptor>

    constructor (contents: seq<bv8>)
      ensures Valid() && this.contents == contents && length == None && descriptorOffset == None && descriptor == None
    {
      this.contents, padding, length, descriptorOffset, descriptor := contents, PADDING, None, None, None;
    }

    /** The cached properties are those of the contents. */
    predicate Valid()
      reads this
    {
      && (length.None? ==> padding == PADDING)
      && (length.Some? ==> padding == PaddingOf(|contents|) && length.value == |contents| + padding)
      && (descriptorOffset.Some? ==> descriptorOffset.value + DESCRIPTOR_SIZE <= |contents|)
      && (descriptor.Some? ==> WellSized(descriptor.value) && descriptorOffset.Some?)
    }

    method Length() returns (n: nat)
      requires Valid()
      modifies this`length, this`padding
      ensures Valid() && n == |contents| + PaddingOf(|contents|) && length == Some(n)
    {
      if length.None? || length.value == 0 {
        n := |contents|;
        if padding != 0 {
          var mod := n % padding;
          padding := if mod != 0 then padding - mod else 0;
          n := n + padding;
        }
        length := Some(n);
      }
      n := length.value;
    }

    /** The offset of the descriptor, searched for if none is known, or if it is 0. */
    method AppDescriptorOffset() returns (r: Option<nat>)
      requires Valid()
      modifies this`length, this`padding, this`descriptorOffset
      ensures Valid() && r == descriptorOffset
      ensures r == if old(descriptorOffset).Some? && old(descriptorOffset).value != 0 then old(descriptorOffset)
                   else if FirstMatch(contents, 0).Some? then FirstMatch(contents, 0) else old(descriptorOffset)
      ensures length == old(length) || length == Some(|contents| + PaddingOf(|contents|))
    {
      hide Unpack, Plausible;
      if descriptorOffset.None? || descriptorOffset.value == 0 {
        var n := Length();
        var offset := 0;
        while offset + DESCRIPTOR_SIZE < n
          invariant FirstMatch(contents, 0) == FirstMatch(contents, offset)
          invariant Valid() && descriptorOffset == old(descriptorOffset)
        {
          if offset + DESCRIPTOR_SIZE <= |contents| && Plausible(Unpack(contents[offset..offset + DESCRIPTOR_SIZE])) {
            descriptorOffset := Some(offset);
            break;
          }
          offset := offset + 1;
        }
      }
      r := descriptorOffset;
    }

    method AppDescriptor() returns (d: Option<Descriptor>)
      requires Valid()
      modifies this`length, this`padding, this`descriptorOffset, this`descriptor
      ensures Valid() && d == descriptor
      ensures old(descriptor).Some? ==> d == old(descriptor) && descriptorOffset == old(descriptorOffset)
      ensures old(descriptor).None? && old(descriptorOffset).None? ==>
                && descriptorOffset == FirstMatch(contents, 0)
                && d == if descriptorOffset.Some? then Some(DescriptorAt(contents, descriptorOffset.value)) else None
    {
      hide Unpack, Plausible;
      if descriptor.None? {
        var offset := AppDescriptorOffset();
        if offset.None? {
          return None;
        }
        descriptor := Some(Unpack(contents[offset.value..offset.value + DESCRIPTOR_SIZE]));
      }
      d := descriptor;
    }

    /** Writes the descriptor to the offset known. */
    method WriteDescriptorRaw()
      requires Valid() && descriptor.Some?
      modifies this`contents
      ensures Valid() && contents == Placed(old(contents), descriptorOffset.value, descriptor.value)
    {
      var o := descriptorOffset.value;
      contents := contents[..o] + Pack(descriptor.value) + contents[o + DESCRIPTOR_SIZE..];
    }

    /** The CRC of the padded contents with the descriptor's CRC field zeroed. */
    method ImageCrc() returns (r: bv64)
      requires Valid() && length.Some? && descriptorOffset.Some?
      modifies this`length, this`padding, this`descriptorOffset
      ensures Valid() && descriptorOffset.Some? && length == Some(|contents| + PaddingOf(|contents|))
      ensures descriptorOffset.value == SecondOffset(contents, old(descriptorOffset).value)
      ensures r == Summary(contents, descriptorOffset.value)
    {
      hide FirstMatch, Crc64.Fed, Unpack, Plausible, Matches, Zeros, PaddingOf;
      var offset := AppDescriptorOffset();
      var crcOffset := offset.value + SIGNATURE_SIZE;
      var content := contents[..crcOffset] + Zeros() + contents[crcOffset + CRC_SIZE..];
      if padding != 0 {
        content := content + Ones(padding);
      } else {
        assert Ones(0) == [];
      }
      assert content == Summed(contents, offset.value);
      var val := Crc64.BitwiseAdd(Crc64.ALL_ONES, content);
      r := val ^ Crc64.ALL_ONES;
    }

    /** Patches size and CRC. Fails if there is no descriptor. */
    method WriteDescriptor() returns (ok: bool)
      requires Valid() && length == None && descriptorOffset == None && descriptor == None
      requires |contents| + PADDING <= 0x1_0000_0000
      modifies this
      ensures Valid() && ok == FirstMatch(old(contents), 0).Some?
      ensures contents == if ok then Patched(old(contents), FirstMatch(old(contents), 0).value) else old(contents)
      ensures ok ==> padding == PaddingOf(|contents|)
    {
      hide Unpack, Plausible, Pack;
      ghost var before := contents;
      var d := AppDescriptor();
      if d.None? {
        return false;
      }
      ghost var o := descriptorOffset.value;
      var n := Length();
      descriptor := Some(d.value.(info := d.value.info.(imageSize := n, imageCrc := 0)));
      assert descriptor.value == Sized(before, o);
      WriteDescriptorRaw();
      ghost var c1 := contents;
      var crc := ImageCrc();
      descriptor := Some(descriptor.value.(info := descriptor.value.info.(imageCrc := crc)));
      WriteDescriptorRaw();
      ok := true;
    }

    /** Closing the file appends the padding. */
    method Close() returns (file: seq<bv8>)
      requires Valid()
      ensures file == contents + Ones(padding)
    {
      file := contents + Ones(padding);
    }
  }

  /** The tool: reads the image to see whether it has a descriptor, and writes a patched copy. */
  method MakeApplication(content: seq<bv8>) returns (file: Option<seq<bv8>>)
    requires |content| + PADDING <= 0x1_0000_0000
    ensures file == match FirstMatch(content, 0) case None => None case Some(o) => Some(Output(content, o))
  {
    hide FirstMatch, PaddingOf;
    var input := new FirmwareImage(content);
    var d := input.AppDescriptor();
    if d.None? {
      return None;
    }
    var output := new FirmwareImage(content);
    var ok := output.WriteDescriptor();
    var bytes := output.Close();
    file := Some(bytes);
  }

  // ---------------------------------------------------------------------------------------------
  // Agreement with the bootloader

  /** The patched contents differ from the originals in size and CRC of the descriptor only. */
  lemma PlacedParts(content: seq<bv8>, o: nat, d: Descriptor)
    requires o + DESCRIPTOR_SIZE <= |content| && WellSized(d)
    ensures DescriptorAt(Placed(content, o, d), o) == d
    ensures Placed(content, o, d)[..o] == content[..o]
    ensures Placed(content, o, d)[o + DESCRIPTOR_SIZE..] == content[o + DESCRIPTOR_SIZE..]
  {
    hide Pack, Unpack;
    UnpackPack(d);
    assert Placed(content, o, d)[o..o + DESCRIPTOR_SIZE] == Pack(d);
  }

  lemma PlacedTwice(content: seq<bv8>, o: nat, d: Descriptor, e: Descriptor)
    requires o + DESCRIPTOR_SIZE <= |content| && WellSized(d) && WellSized(e)
    ensures Placed(Placed(content, o, d), o, e) == Placed(content, o, e)
  {
    hide Pack;
  }

  /** Two descriptors that differ in their CRC only sum up to the same CRC. */
  lemma SameSum(content: seq<bv8>, o: nat, d: Descriptor, crc: bv64)
    requires o + DESCRIPTOR_SIZE <= |content| && WellSized(d)
    ensures Summed(Placed(content, o, WithCrc(d, crc)), o) == Summed(Placed(content, o, d), o)
  {
    hide Pack, PaddingOf, Zeros;
    var e := WithCrc(d, crc);
    var a, b := Placed(content, o, d), Placed(content, o, e);
    PackParts(d);
    PackParts(e);
    CrcOnly(Pack(d), Pack(e), d, e);
    forall i | 0 <= i < |a| && !(o + 8 <= i < o + 16) ensures a[i] == b[i] {
      if o <= i < o + DESCRIPTOR_SIZE {
        assert a[i] == Pack(d)[i - o] && b[i] == Pack(e)[i - o];
      }
    }
    assert a[..o + 8] == b[..o + 8] && a[o + 16..] == b[o + 16..];
  }

  lemma CrcOnly(a: seq<bv8>, b: seq<bv8>, d: Descriptor, e: Descriptor)
    requires |a| == |b| == DESCRIPTOR_SIZE && a[0..8] == b[0..8] && a[16..20] == b[16..20] && a[20..24] == b[20..24]
    requires a[24] == b[24] && a[25] == b[25] && a[26..32] == b[26..32]
    ensures forall k | 0 <= k < DESCRIPTOR_SIZE && !(8 <= k < 16) :: a[k] == b[k]
  {
    forall k | 0 <= k < DESCRIPTOR_SIZE && !(8 <= k < 16) ensures a[k] == b[k] {
      if k < 8 {
        assert a[k] == a[0..8][k] && b[k] == b[0..8][k];
      } else if k < 20 {
        assert a[k] == a[16..20][k - 16] && b[k] == b[16..20][k - 16];
      } else if k < 24 {
        assert a[k] == a[20..24][k - 20] && b[k] == b[20..24][k - 20];
      } else if k >= 26 {
        assert a[k] == a[26..32][k - 26] && b[k] == b[26..32][k - 26];
      }
    }
  }

  /** For a descriptor with the right size, the bootloader sums up what the tool sums up. */
  lemma SameInput(content: seq<bv8>, o: nat, storage: seq<bv8>)
    requires o + DESCRIPTOR_SIZE <= |content| && content + Ones(PaddingOf(|content|)) <= storage
    ensures CrcInput(storage, o, |content| + PaddingOf(|content|)) == Summed(content, o)
  {
    hide Zeros, PaddingOf;
    var n, p := |content|, PaddingOf(|content|);
    assert storage[..n + p] == content + Ones(p);
    assert Clip(storage, 0, o + 8) == content[..o + 8];
    assert Clip(storage, o + 16, n + p) == content[o + 16..] + Ones(p);
  }

  /** The descriptor the tool leaves at o: with its CRC if it still took it to be there, and with none otherwise. */
  lemma LeftAt(content: seq<bv8>, o: nat)
    requires FirstMatch(content, 0) == Some(o) && |content| + PADDING <= 0x1_0000_0000
    ensures SecondOffset(FirstWrite(content, o), o) == o ==>
              Patched(content, o) == Placed(content, o, WithCrc(Sized(content, o), Summary(FirstWrite(content, o), o)))
  {
    hide Pack, Unpack, FirstMatch, Summary, PaddingOf, Sized, SecondOffset;
    var d := Sized(content, o);
    PlacedTwice(content, o, d, WithCrc(d, Summary(FirstWrite(content, o), o)));
  }

  lemma SizedValid(content: seq<bv8>, o: nat, maxSize: nat, crc: bv64)
    requires Matches(content, o) && |content| + PADDING <= 0x1_0000_0000 && |content| + PaddingOf(|content|) <= maxSize
    ensures AppImage.Valid(WithCrc(Sized(content, o), crc), maxSize)
  {
    hide Unpack;
  }

  /** There is a descriptor at p besides the one at offset 0: behind it; or inside it, once the image's size is filled
      in there, which takes an image of more than a gigabyte. */
  predicate Rival(content: seq<bv8>, p: nat)
    requires DESCRIPTOR_SIZE <= |content| && |content| + PADDING <= 0x1_0000_0000
  {
    && p + DESCRIPTOR_SIZE < |content| + PaddingOf(|content|)
    && if p < DESCRIPTOR_SIZE then 17 <= p <= 18 && Matches(FirstWrite(content, 0), p) else Matches(content, p)
  }

  /** The first descriptor of the image is not at offset 0, or it is the only one. */
  ghost predicate KeepsTrack(content: seq<bv8>, o: nat)
    requires o + DESCRIPTOR_SIZE <= |content| && |content| + PADDING <= 0x1_0000_0000
  {
    o != 0 || forall p: nat :: !Rival(content, p)
  }

  /** Up to here an image is small enough for its size not to look like part of a signature. */
  const SIZE_LIMIT := 0x4400_0000

  /** With the size filled in, no signature overlaps the descriptor at offset 0, but where the size may be part of
      one. */
  lemma NoOverlap(content: seq<bv8>, p: nat)
    requires Matches(content, 0) && |content| + PADDING <= 0x1_0000_0000 && 0 < p < DESCRIPTOR_SIZE
    requires p < 17 || 18 < p || |content| + PADDING <= SIZE_LIMIT
    ensures 0 + DESCRIPTOR_SIZE <= |content| && !Matches(FirstWrite(content, 0), p)
  {
    hide Unpack, WordBytes, Crc.SignatureBytes, PaddingOf, Pack, Matches, Sized, Placed, Plausible;
    Fits(content, 0);
    var d := Sized(content, 0);
    var c1, b := FirstWrite(content, 0), Pack(d);
    SizedFields(content);
    PackParts(d);
    DescriptorBytes(b, d);
    PlacedBytes(content, d);
    NoSignatureAt(c1, p, if p <= 16 then p else if p <= 18 then 19 else if p <= 26 then 26 else p);
  }

  lemma Fits(content: seq<bv8>, o: nat)
    requires Matches(content, o)
    ensures o + DESCRIPTOR_SIZE <= |content|
  {
  }

  lemma SizedFields(content: seq<bv8>)
    requires Matches(content, 0) && |content| + PADDING <= 0x1_0000_0000
    ensures var d := Sized(content, 0);
            && d.signature == SIGNATURE && d.info.imageCrc == 0 && d.reserved == RESERVED
            && d.info.imageSize == |content| + PaddingOf(|content|) && d.info.imageSize % PADDING == 0
  {
    hide Unpack;
  }

  lemma PlacedBytes(content: seq<bv8>, d: Descriptor)
    requires DESCRIPTOR_SIZE <= |content| && WellSized(d)
    ensures forall i | 0 <= i < DESCRIPTOR_SIZE :: Placed(content, 0, d)[i] == Pack(d)[i]
  {
    hide Pack;
  }

  lemma NoSignatureAt(content: seq<bv8>, p: nat, i: nat)
    requires p <= i < p + SIGNATURE_SIZE && i < |content| && content[i] != SIGNATURE[i - p]
    ensures !Matches(content, p)
  {
    hide Unpack;
    if Matches(content, p) {
      SignatureAt(content, p);
      assert false;
    }
  }

  lemma SignatureAt(content: seq<bv8>, p: nat)
    requires Matches(content, p)
    ensures forall i | p <= i < p + SIGNATURE_SIZE :: content[i] == SIGNATURE[i - p]
  {
    hide Scalars.Assemble, WordOf;
    var b := content[p..p + DESCRIPTOR_SIZE];
    assert b[0..8] == SIGNATURE;
    forall i | p <= i < p + SIGNATURE_SIZE ensures content[i] == SIGNATURE[i - p] {
      assert content[i] == b[0..8][i - p];
    }
  }

  /** No byte of a sized descriptor but the first starts a signature: see the bytes that decide. */
  lemma DescriptorBytes(b: seq<bv8>, d: Descriptor)
    requires |b| == DESCRIPTOR_SIZE && d.signature == SIGNATURE && d.info.imageCrc == 0 && d.reserved == RESERVED
    requires d.info.imageSize < 0x1_0000_0000 && d.info.imageSize % PADDING == 0
    requires b[0..8] == d.signature && b[8..16] == Crc.SignatureBytes(d.info.imageCrc)
    requires b[16..20] == WordBytes(d.info.imageSize, 4) && b[26..32] == d.reserved
    ensures forall i | 0 < i <= 16 :: b[i] != SIGNATURE[0]
    ensures d.info.imageSize < SIZE_LIMIT ==> b[19] != SIGNATURE[1] && b[19] != SIGNATURE[2]
    ensures forall i | 26 <= i < 32 :: b[i] == 0xFF
  {
    forall i | 0 < i < 8 ensures b[i] != SIGNATURE[0] {
      assert b[i] == b[0..8][i];
    }
    ZeroCrc();
    forall i | 8 <= i < 16 ensures b[i] == 0 {
      assert b[i] == b[8..16][i - 8];
    }
    SizeBytes(d.info.imageSize);
    assert b[16] == b[16..20][0] && b[19] == b[16..20][3];
    forall i | 26 <= i < 32 ensures b[i] == 0xFF {
      assert b[i] == b[26..32][i - 26];
    }
  }

  lemma ZeroCrc()
    ensures forall i | 0 <= i < 8 :: Crc.SignatureBytes(0)[i] == 0
  {
  }

  lemma SizeBytes(n: nat)
    requires n < 0x1_0000_0000 && n % PADDING == 0
    ensures var b := WordBytes(n, 4); b[0] != 0x41 && (n < SIZE_LIMIT ==> b[3] != 0x50 && b[3] != 0x44)
  {
    hide ToByte, ToNat;
    assert WordBytes(n, 4)[3] == WordBytes(n / 0x100, 3)[2] == WordBytes(n / 0x100 / 0x100, 2)[1]
           == WordBytes(n / 0x100 / 0x100 / 0x100, 1)[0];
    ByteNat(n % 0x100);
    ByteNat(n / 0x100 / 0x100 / 0x100);
    CharCodes();
  }

  lemma CharCodes()
    ensures ToNat(0x41) == 0x41 && ToNat(0x50) == 0x50 && ToNat(0x44) == 0x44
  {
  }

  /** The search finds the first match, unless it is at the very end of an image that needs no padding. */
  lemma {:induction false} FirstMatchIs(content: seq<bv8>, from: nat, o: nat)
    requires from <= o
    ensures FirstMatch(content, from) == Some(o) <==>
            && Matches(content, o) && o + DESCRIPTOR_SIZE < |content| + PaddingOf(|content|)
            && forall p: nat | from <= p < o :: !Matches(content, p)
    decreases |content| + PADDING - from
  {
    hide Matches;
    if from + DESCRIPTOR_SIZE < |content| + PaddingOf(|content|) && !Matches(content, from) && from < o {
      FirstMatchIs(content, from + 1, o);
    }
  }

  /** With the size filled in and no CRC, the descriptor itself is no match any more. */
  lemma Rejected(content: seq<bv8>)
    requires Matches(content, 0) && |content| + PADDING <= 0x1_0000_0000
    ensures !Matches(FirstWrite(content, 0), 0)
  {
    hide Pack, Unpack;
    PlacedParts(content, 0, Sized(content, 0));
  }

  /** Behind the descriptor, the first write changes nothing. */
  lemma MatchesBehind(content: seq<bv8>, p: nat)
    requires DESCRIPTOR_SIZE <= p && DESCRIPTOR_SIZE <= |content| && |content| + PADDING <= 0x1_0000_0000
    ensures Matches(FirstWrite(content, 0), p) == Matches(content, p)
  {
    hide Unpack, Pack, Plausible, Sized;
    if p + DESCRIPTOR_SIZE <= |content| {
      assert FirstWrite(content, 0)[p..p + DESCRIPTOR_SIZE] == content[p..p + DESCRIPTOR_SIZE];
    }
  }

  /** What the second search may find is a rival. */
  lemma RivalIs(content: seq<bv8>, p: nat)
    requires Matches(content, 0) && |content| + PADDING <= 0x1_0000_0000
    ensures DESCRIPTOR_SIZE <= |content|
    ensures Matches(FirstWrite(content, 0), p) && p + DESCRIPTOR_SIZE < |content| + PaddingOf(|content|) <==>
            Rival(content, p)
  {
    hide Unpack, Matches, PaddingOf, FirstWrite, Plausible;
    Fits(content, 0);
    if p == 0 {
      Rejected(content);
    } else if p >= DESCRIPTOR_SIZE {
      MatchesBehind(content, p);
    } else if p < 17 || 18 < p {
      NoOverlap(content, p);
    }
  }

  /** After the first write the tool searches again exactly if the descriptor is at offset 0, and finds another one
      exactly if there is a rival. */
  lemma TracksIff(content: seq<bv8>, o: nat)
    requires FirstMatch(content, 0) == Some(o) && |content| + PADDING <= 0x1_0000_0000
    ensures var p := SecondOffset(FirstWrite(content, o), o);
            (p == o <==> KeepsTrack(content, o)) && (p != o ==> o == 0 && Rival(content, p))
  {
    hide Unpack, Matches, PaddingOf, FirstWrite, FirstMatch, Rival;
    if o == 0 {
      Fits(content, 0);
      var c1 := FirstWrite(content, 0);
      forall p: nat ensures Matches(c1, p) && p + DESCRIPTOR_SIZE < |content| + PaddingOf(|content|) <==>
             Rival(content, p) {
        RivalIs(content, p);
      }
      RivalIs(content, 0);
      NoneFound(c1, 0);
      if FirstMatch(c1, 0).Some? {
        FirstMatchIs(c1, 0, FirstMatch(c1, 0).value);
      }
      NotItself(content);
    }
  }

  lemma NotItself(content: seq<bv8>)
    requires DESCRIPTOR_SIZE <= |content| && |content| + PADDING <= 0x1_0000_0000
    ensures !Rival(content, 0)
  {
  }

  lemma {:induction false} NoneFound(content: seq<bv8>, from: nat)
    ensures FirstMatch(content, from) == None <==>
            forall p: nat | from <= p && p + DESCRIPTOR_SIZE < |content| + PaddingOf(|content|) :: !Matches(content, p)
    decreases |content| + PADDING - from
  {
    hide Matches;
    if from + DESCRIPTOR_SIZE < |content| + PaddingOf(|content|) && !Matches(content, from) {
      NoneFound(content, from + 1);
    }
  }

  predicate RivalBehind(content: seq<bv8>, p: nat) {
    DESCRIPTOR_SIZE <= p && p + DESCRIPTOR_SIZE < |content| + PaddingOf(|content|) && Matches(content, p)
  }

  /** For images of up to a gigabyte: the tool keeps track unless the descriptor is at offset 0 and there is one behind
      it. */
  lemma TrackOfSmall(content: seq<bv8>, o: nat)
    requires FirstMatch(content, 0) == Some(o) && |content| + PADDING <= SIZE_LIMIT
    ensures KeepsTrack(content, o) <==>
            o != 0 || forall p: nat :: !RivalBehind(content, p)
  {
    hide Unpack, Matches, PaddingOf, FirstWrite, FirstMatch;
    if o == 0 {
      NoOverlap(content, 17);
      NoOverlap(content, 18);
      forall p: nat ensures Rival(content, p) <==> RivalBehind(content, p) {
      }
    }
  }

  /** If the tool does not lose track of the descriptor, the bootloader accepts the file it writes, wherever it is at
      the beginning of the storage. */
  lemma OutputAccepted(content: seq<bv8>, o: nat, storage: seq<bv8>, maxSize: nat)
    requires FirstMatch(content, 0) == Some(o) && |content| + PADDING <= 0x1_0000_0000
    requires KeepsTrack(content, o)
    requires Output(content, o) <= storage && |Output(content, o)| <= maxSize
    ensures Accepts(storage, maxSize, o)
    ensures var d := DescriptorAt(storage, o);
            && d.info.imageSize == |Output(content, o)|
            && d == DescriptorAt(content, o).(info := d.info)
            && d.info.vcsCommit == DescriptorAt(content, o).info.vcsCommit
            && d.info.majorVersion == DescriptorAt(content, o).info.majorVersion
            && d.info.minorVersion == DescriptorAt(content, o).info.minorVersion
  {
    hide Pack, Unpack, FirstMatch, PaddingOf, AppImage.Valid, Summed, CrcInput, Crc64.Crc, Matches, KeepsTrack,
         SecondOffset, Placed;
    TracksIff(content, o);
    var d := Sized(content, o);
    var crc := Summary(FirstWrite(content, o), o);
    var e := WithCrc(d, crc);
    LeftAt(content, o);
    var c2 := Placed(content, o, e);
    PlacedParts(content, o, e);
    assert storage[o..o + DESCRIPTOR_SIZE] == c2[o..o + DESCRIPTOR_SIZE];
    SizedValid(content, o, maxSize, crc);
    SameSum(content, o, d, crc);
    SameInput(c2, o, storage);
  }

  /** Outside the descriptor the file is the image, followed by the fewest bytes of 0xFF that make its length a multiple
      of 8. */
  lemma OutputElsewhere(content: seq<bv8>, o: nat)
    requires FirstMatch(content, 0) == Some(o) && |content| + PADDING <= 0x1_0000_0000 && KeepsTrack(content, o)
    ensures var file := Output(content, o);
            && |content| <= |file| < |content| + 8 && |file| % 8 == 0 && o + 32 <= |content|
            && file[..o] == content[..o] && file[o + 32..|content|] == content[o + 32..]
            && forall k | |content| <= k < |file| :: file[k] == 0xFF
  {
    hide Pack, Unpack, FirstMatch, PaddingOf, Matches, KeepsTrack, SecondOffset, Placed, Summary;
    TracksIff(content, o);
    LeftAt(content, o);
    var e := WithCrc(Sized(content, o), Summary(FirstWrite(content, o), o));
    PlacedParts(content, o, e);
    var c := Placed(content, o, e);
    var file := Output(content, o);
    assert file == c + Ones(PaddingOf(|content|)) && file[..o] == c[..o] && file[o + 32..|content|] == c[o + 32..];
    forall k | |content| <= k < |file| ensures file[k] == 0xFF {
      assert file[k] == Ones(PaddingOf(|content|))[k - |content|];
    }
  }

  lemma WrittenAt(content: seq<bv8>)
    requires Matches(content, 0) && |content| + PADDING <= 0x1_0000_0000
    ensures DESCRIPTOR_SIZE <= |content| && DescriptorAt(FirstWrite(content, 0), 0) == Sized(content, 0)
    ensures Sized(content, 0).signature == SIGNATURE && WithCrc(Sized(content, 0), 0) == Sized(content, 0)
  {
    hide Pack, Unpack;
    PlacedParts(content, 0, Sized(content, 0));
  }

  /** Patching a rival leaves signature, CRC and size of the descriptor at 0 as they are. */
  lemma FrontStays(content: seq<bv8>, p: nat, e: Descriptor)
    requires DESCRIPTOR_SIZE <= |content| && |content| + PADDING <= 0x1_0000_0000 && Rival(content, p)
    requires WellSized(e) && e.signature == SIGNATURE
    ensures p + DESCRIPTOR_SIZE <= |content|
    ensures Placed(FirstWrite(content, 0), p, e)[..20] == FirstWrite(content, 0)[..20]
  {
    hide Unpack, Plausible, Sized, FirstWrite, PaddingOf;
    var c1 := FirstWrite(content, 0);
    if p < DESCRIPTOR_SIZE {
      SignatureAt(c1, p);
      PackParts(e);
      forall i | p <= i < 20 ensures Placed(c1, p, e)[i] == c1[i] {
        assert Pack(e)[i - p] == Pack(e)[0..8][i - p];
      }
    }
  }

  lemma FrontFields(a: seq<bv8>, b: seq<bv8>)
    requires |a| == |b| == DESCRIPTOR_SIZE && a[..20] == b[..20]
    ensures Unpack(a).signature == Unpack(b).signature
    ensures Unpack(a).info.imageCrc == Unpack(b).info.imageCrc && Unpack(a).info.imageSize == Unpack(b).info.imageSize
  {
    hide WordOf, Scalars.Assemble;
    assert a[0..8] == a[..20][0..8] && a[8..16] == a[..20][8..16] && a[16..20] == a[..20][16..20];
    assert b[0..8] == b[..20][0..8] && b[8..16] == b[..20][8..16] && b[16..20] == b[..20][16..20];
  }

  /** The descriptor the bootloader finds at 0 if the tool has lost track of it: the right one, but with a CRC of 0. */
  lemma LostAt(content: seq<bv8>, storage: seq<bv8>)
    requires FirstMatch(content, 0) == Some(0) && |content| + PADDING <= 0x1_0000_0000 && !KeepsTrack(content, 0)
    requires Output(content, 0) <= storage
    ensures var found := DescriptorAt(storage, 0);
            && found.signature == SIGNATURE && found.info.imageCrc == 0
            && found.info.imageSize == |Output(content, 0)|
  {
    hide Pack, Unpack, FirstMatch, PaddingOf, Matches, Summary, KeepsTrack, Rival, FirstWrite, Placed;
    TracksIff(content, 0);
    var d, c1 := Sized(content, 0), FirstWrite(content, 0);
    var p := SecondOffset(c1, 0);
    WrittenAt(content);
    var e := WithCrc(d, Summary(c1, p));
    FrontStays(content, p, e);
    var patched := Placed(c1, p, e);
    assert storage[0..32][..20] == patched[..20] && c1[0..32][..20] == c1[..20];
    FrontFields(storage[0..32], c1[0..32]);
  }

  /** Exactly when the bootloader accepts the file: if the tool keeps track of the descriptor. Otherwise the CRC goes
      into the rival and the descriptor at 0 is left without one, which is right only if the image's CRC is 0 by
      chance. */
  lemma OutputAcceptedIff(content: seq<bv8>, o: nat, storage: seq<bv8>, maxSize: nat)
    requires FirstMatch(content, 0) == Some(o) && |content| + PADDING <= 0x1_0000_0000
    requires Output(content, o) <= storage && |Output(content, o)| <= maxSize
    ensures Accepts(storage, maxSize, o) <==>
            || KeepsTrack(content, o)
            || Crc64.Crc(CrcInput(storage, o, |Output(content, o)|)) == 0
  {
    hide Pack, Unpack, FirstMatch, PaddingOf, AppImage.Valid, CrcInput, Crc64.Crc, Matches, Summary, KeepsTrack, Rival,
         FirstWrite;
    TracksIff(content, o);
    if KeepsTrack(content, o) {
      OutputAccepted(content, o, storage, maxSize);
    } else {
      LostAt(content, storage);
      LostValid(DescriptorAt(storage, 0), |content| + PaddingOf(|content|), maxSize);
    }
  }

  lemma LostValid(found: Descriptor, size: nat, maxSize: nat)
    requires found.signature == SIGNATURE && found.info.imageSize == size <= maxSize && 0 < size && size % PADDING == 0
    ensures AppImage.Valid(found, maxSize)
  {
  }

  const BLANK_DESCRIPTOR := Descriptor(SIGNATURE, AppInfo(0, 0, 0, 1, 0), RESERVED)

  /** The version of the second descriptor in such an image. */
  function Versioned(v: bv8): (d: Descriptor)
    ensures WellSized(d)
  {
    BLANK_DESCRIPTOR.(info := AppInfo(0, 0, 0, 1, v))
  }

  /** Such an image: two blank descriptors, 8 bytes apart. The second one is of minor version v. */
  function TwoDescriptors(v: bv8): (content: seq<bv8>)
    ensures |content| == 80
  {
    Pack(BLANK_DESCRIPTOR) + Ones(8) + Pack(Versioned(v)) + Ones(8)
  }

  /** The tool writes the CRC into the second one. */
  lemma LosesTrack(v: bv8)
    ensures FirstMatch(TwoDescriptors(v), 0) == Some(0) && !KeepsTrack(TwoDescriptors(v), 0)
    ensures SecondOffset(FirstWrite(TwoDescriptors(v), 0), 0) == 40
  {
    hide Pack, Unpack, FirstMatch, Rival, FirstWrite;
    var content := TwoDescriptors(v);
    assert content[0..32] == Pack(BLANK_DESCRIPTOR) && content[40..72] == Pack(Versioned(v));
    UnpackPack(BLANK_DESCRIPTOR);
    UnpackPack(Versioned(v));
    FirstMatchIs(content, 0, 0);
    TracksIff(content, 0);
    var c1 := FirstWrite(content, 0);
    MatchesBehind(content, 40);
    forall p: nat | p < 40 ensures !Matches(c1, p) {
      if p == 0 {
        Rejected(content);
      } else if p < 32 {
        NoOverlap(content, p);
      } else {
        MatchesBehind(content, p);
        assert content[p] == 0xFF;
        NoSignatureAt(content, p, p);
      }
    }
    FirstMatchIs(c1, 0, 40);
  }

  const SIZED_DESCRIPTOR := BLANK_DESCRIPTOR.(info := AppInfo(0, 80, 0, 1, 0))

  lemma FirstWritten(v: bv8)
    ensures Sized(TwoDescriptors(v), 0) == SIZED_DESCRIPTOR
    ensures FirstWrite(TwoDescriptors(v), 0) == Pack(SIZED_DESCRIPTOR) + Ones(8) + Pack(Versioned(v)) + Ones(8)
  {
    hide Pack, Unpack;
    var content := TwoDescriptors(v);
    assert content[0..32] == Pack(BLANK_DESCRIPTOR);
    UnpackPack(BLANK_DESCRIPTOR);
  }

  function LostCrc(v: bv8): bv64 {
    Summary(FirstWrite(TwoDescriptors(v), 0), 40)
  }

  lemma VersionedBytes(v: bv8)
    ensures var b := Pack(Versioned(v));
            b[..8] == SIGNATURE && b[16..] == Pack(BLANK_DESCRIPTOR)[16..25] + [v] + RESERVED
  {
    hide WordBytes, Crc.SignatureBytes;
  }

  /** The sum over four parts, the second of them a descriptor's: its 8 bytes of CRC are zeroed. */
  lemma SummedParts(before: seq<bv8>, b: seq<bv8>, after: seq<bv8>, middle: seq<bv8>, v: bv8, rest: seq<bv8>)
    requires |before| == 40 && |b| == DESCRIPTOR_SIZE && |after| == 8 && b[..8] == SIGNATURE
    requires b[16..] == middle + [v] + rest
    ensures Summed(before + b + after, 40) == before + SIGNATURE + Zeros() + middle + [v] + (rest + after)
  {
    var content := before + b + after;
    assert content[..48] == before + b[..8] && content[56..] == b[16..] + after;
    assert content[..48] + Zeros() + content[56..] + Ones(PaddingOf(|content|)) ==
           content[..48] + Zeros() + content[56..];
  }

  /** What the tool sums up depends on the version in one byte. */
  lemma LostSum(v: bv8)
    ensures LostCrc(v) ==
            Crc64.Crc(Pack(SIZED_DESCRIPTOR) + Ones(8) + SIGNATURE + Zeros() + Pack(BLANK_DESCRIPTOR)[16..25] + [v]
                                    + (RESERVED + Ones(8)))
  {
    hide Crc64.Crc, Pack, Summed;
    FirstWritten(v);
    VersionedBytes(v);
    SummedParts(Pack(SIZED_DESCRIPTOR) + Ones(8), Pack(Versioned(v)), Ones(8), Pack(BLANK_DESCRIPTOR)[16..25], v,
                RESERVED);
  }

  lemma PlacedParted(before: seq<bv8>, b: seq<bv8>, after: seq<bv8>, e: Descriptor)
    requires |before| == 40 && |b| == DESCRIPTOR_SIZE && |after| == 8 && WellSized(e)
    ensures Placed(before + b + after, 40, e) + Ones(PaddingOf(80)) == before + Pack(e) + after
  {
    hide Pack;
    var content := before + b + after;
    assert content[..40] == before && content[72..] == after;
  }

  lemma LostFile(v: bv8)
    ensures Output(TwoDescriptors(v), 0) ==
            Pack(SIZED_DESCRIPTOR) + Ones(8) + Pack(WithCrc(SIZED_DESCRIPTOR, LostCrc(v))) + Ones(8)
  {
    hide Pack, Summary, SecondOffset, FirstWrite, Sized, Placed;
    LosesTrack(v);
    FirstWritten(v);
    PlacedParted(Pack(SIZED_DESCRIPTOR) + Ones(8), Pack(Versioned(v)), Ones(8), WithCrc(SIZED_DESCRIPTOR, LostCrc(v)));
  }

  lemma MisplacedCrc(crc: bv64)
    ensures Pack(SIZED_DESCRIPTOR)[..8] == SIGNATURE
    ensures Pack(WithCrc(SIZED_DESCRIPTOR, crc)) == SIGNATURE + Crc.SignatureBytes(crc) + Pack(SIZED_DESCRIPTOR)[16..]
  {
    hide WordBytes, Crc.SignatureBytes;
  }

  /** What the bootloader sums up depends on it in the 8 bytes of the misplaced CRC. */
  lemma LostInput(v: bv8, storage: seq<bv8>)
    requires Output(TwoDescriptors(v), 0) <= storage
    ensures CrcInput(storage, 0, 80) == SIGNATURE + Zeros() + Pack(SIZED_DESCRIPTOR)[16..] + Ones(8) + SIGNATURE
                                        + Crc.SignatureBytes(LostCrc(v)) + (Pack(SIZED_DESCRIPTOR)[16..] + Ones(8))
  {
    hide Pack, Crc.SignatureBytes, Output, TwoDescriptors, LostCrc, WithCrc;
    LostFile(v);
    MisplacedCrc(LostCrc(v));
    var d, e := Pack(SIZED_DESCRIPTOR), Pack(WithCrc(SIZED_DESCRIPTOR, LostCrc(v)));
    var file := d + Ones(8) + e + Ones(8);
    assert file[..8] == d[..8] && file[16..80] == d[16..] + Ones(8) + e + Ones(8);
    assert storage[..8] == file[..8] && storage[16..80] == file[16..80];
    FourParts(d[16..] + Ones(8), SIGNATURE, Crc.SignatureBytes(LostCrc(v)), d[16..], Ones(8));
    assert Clip(storage, 0, 8) == SIGNATURE && Clip(storage, 16, 80) == d[16..] + Ones(8) + e + Ones(8);
  }

  lemma FourParts(a: seq<bv8>, b: seq<bv8>, c: seq<bv8>, d: seq<bv8>, e: seq<bv8>)
    ensures a + (b + c + d) + e == a + b + c + (d + e)
  {
  }

  /** The bootloader rejects what the tool makes of these images, but for one at most: a CRC of 0 by chance. */
  lemma LostIsRejected(v: bv8, w: bv8, s: seq<bv8>, t: seq<bv8>, maxSize: nat)
    requires v != w && Output(TwoDescriptors(v), 0) <= s && Output(TwoDescriptors(w), 0) <= t && 80 <= maxSize
    ensures !Accepts(s, maxSize, 0) || !Accepts(t, maxSize, 0)
  {
    hide Crc64.Crc, Output, Accepts, KeepsTrack, FirstMatch, TwoDescriptors, Summary, LostCrc, Pack, CrcInput;
    if Accepts(s, maxSize, 0) && Accepts(t, maxSize, 0) {
      OutputLength(v);
      OutputLength(w);
      LosesTrack(v);
      LosesTrack(w);
      OutputAcceptedIff(TwoDescriptors(v), 0, s, maxSize);
      OutputAcceptedIff(TwoDescriptors(w), 0, t, maxSize);
      LostInput(v, s);
      LostInput(w, t);
      var d := Pack(SIZED_DESCRIPTOR);
      Crc64.BurstDetected(SIGNATURE + Zeros() + d[16..] + Ones(8) + SIGNATURE, Crc.SignatureBytes(LostCrc(v)),
                          Crc.SignatureBytes(LostCrc(w)), d[16..] + Ones(8));
      Scalars.AssembleBytes(LostCrc(v));
      Scalars.AssembleBytes(LostCrc(w));
      LostSum(v);
      LostSum(w);
      Crc64.BurstDetected(d + Ones(8) + SIGNATURE + Zeros() + Pack(BLANK_DESCRIPTOR)[16..25], [v], [w],
                          RESERVED + Ones(8));
      assert false;
    }
  }

  lemma OutputLength(v: bv8)
    ensures |TwoDescriptors(v)| == 80 && |Output(TwoDescriptors(v), 0)| == 80
  {
    hide Patched, Pack;
  }

  /** From the tool through an upgrade to the boot delay: the application found is the one whose descriptor the tool
      patched, if the bootloader meets no other valid one before it. */
  lemma ToolAndBootloaderAgree(content: seq<bv8>, o: nat, chunks: seq<seq<bv8>>, s: Bootloader.System, maxSize: nat,
                               thread: nat)
    requires FirstMatch(content, 0) == Some(o) && |content| + PADDING <= 0x1_0000_0000 && o % STEP == 0
    requires KeepsTrack(content, o)
    requires Bootloader.Joined(chunks) == Output(content, o)
    requires Bootloader.Safe(s, maxSize) && Bootloader.UpgradeAllowed(s.core.state)
    requires Bootloader.Total(chunks) <= |s.core.storage| && Bootloader.Total(chunks) <= maxSize
    requires var storage := Bootloader.Overwritten(s.core.storage, 0, Output(content, o));
             forall p: nat | p < o && p % STEP == 0 :: !Accepts(storage, maxSize, p)
    ensures Bootloader.IsRun(s, maxSize, Bootloader.Upgrade(thread, s.core.storage, chunks))
    ensures var c := Bootloader.Run(s, maxSize, Bootloader.Upgrade(thread, s.core.storage, chunks)).core;
            && c.state == Bootloader.BootDelay && c.cached.Some?
            && c.cached.value.imageSize == |Output(content, o)|
            && c.cached.value.vcsCommit == DescriptorAt(content, o).info.vcsCommit
            && c.cached.value.majorVersion == DescriptorAt(content, o).info.majorVersion
            && c.cached.value.minorVersion == DescriptorAt(content, o).info.minorVersion
  {
    hide Pack, Unpack, FirstMatch, PaddingOf, AppImage.Valid, Summed, CrcInput, Crc64.Crc, Output, Located,
         Bootloader.IsRun, Bootloader.Run, Bootloader.Safe, Accepts, KeepsTrack, SecondOffset, Placed;
    var file := Output(content, o);
    var storage := Bootloader.Overwritten(s.core.storage, 0, file);
    Bootloader.FaultlessUpgrade(s, maxSize, thread, chunks);
    assert storage[..|file|] == file;
    OutputAccepted(content, o, storage, maxSize);
    AcceptedFits(storage, maxSize, o);
    var d := DescriptorAt(storage, o);
    assert FoundAt(storage, maxSize, o, d);
    LocatedIs(storage, maxSize, d);
  }

  lemma AcceptedFits(storage: seq<bv8>, maxSize: nat, o: nat)
    requires Accepts(storage, maxSize, o)
    ensures o + DESCRIPTOR_SIZE <= |storage|
  {
  }
}

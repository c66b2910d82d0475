/** The bootloader controller: it searches the storage for a valid application, and guards upgrades with a state machine
    whose mutex-protected sections may interleave in any way. */
module Bootloader {
  import opened Reception
  import opened AppImage
  import opened Crc64
  import Scalars

  const ROM_BUFFER_SIZE := 1024

  // ---------------------------------------------------------------------------------------------
  // The storage

  /** A modifying call to the backend and its result. */
  datatype Call = Begin(res: int) | Put(offset: nat, data: seq<bv8>, res: int) | End(success: bool, res: int)

  /** Reading is cut off at the end of the storage. What upgrades do to it is up to the backend: any contents, any
      result. */
  class StorageBackend {
    var storage: seq<bv8>
    ghost var calls: seq<Call>

    method Read(offset: nat, buffer: array<bv8>, size: nat) returns (count: nat)
      requires size <= buffer.Length
      modifies buffer
      ensures count == |Clip(storage, offset, offset + size)| <= size
      ensures buffer[..count] == Clip(storage, offset, offset + size)
    {
      if offset >= |storage| {
        return 0;
      }
      count := if offset + size >= |storage| then |storage| - offset else size;
      for i := 0 to count
        invariant forall k | 0 <= k < i :: buffer[k] == storage[offset + k]
      {
        buffer[i] := storage[offset + i];
      }
    }

    method BeginUpgrade() returns (res: int)
      modifies this
      ensures calls == old(calls) + [Begin(res)]
    {
      storage := *;
      res := *;
      calls := calls + [Begin(res)];
    }

    method Write(offset: nat, data: seq<bv8>) returns (res: int)
      modifies this
      ensures calls == old(calls) + [Put(offset, data, res)]
    {
      storage := *;
      res := *;
      calls := calls + [Put(offset, data, res)];
    }

    method EndUpgrade(success: bool) returns (res: int)
      modifies this
      ensures calls == old(calls) + [End(success, res)]
    {
      storage := *;
      res := *;
      calls := calls + [End(success, res)];
    }
  }

  lemma ClipsJoin(s: seq<bv8>, from: nat, i: nat, n: nat)
    requires from <= i && (from == i || i <= |s|)
    ensures var count := |Clip(s, i, i + n)|;
            Clip(s, from, i) + Clip(s, i, i + n) == Clip(s, from, i + count) && (count > 0 ==> i + count <= |s|)
                && count <= n
    ensures |Clip(s, i, i + n)| == 0 && n > 0 ==> i >= |s|
  {
    hide Clip;
    if i >= |s| {
      ClipPast(s, i, i + n);
      assert Clip(s, from, i) + [] == Clip(s, from, i);
    } else {
      var end := if i + n < |s| then i + n else |s|;
      ClipWithin(s, i, i + n);
      ClipWithin(s, from, i);
      ClipWithin(s, from, end);
      assert s[from..i] + s[i..end] == s[from..end];
    }
  }

  lemma ClipPast(s: seq<bv8>, from: nat, to: nat)
    requires from >= |s|
    ensures Clip(s, from, to) == []
  {
  }

  lemma ClipWithin(s: seq<bv8>, from: nat, to: nat)
    requires from <= to && from <= |s|
    ensures Clip(s, from, to) == s[from..if to < |s| then to else |s|]
  {
  }

  lemma ClipEnds(s: seq<bv8>, from: nat, i: nat, to: nat)
    requires |s| <= i <= to
    ensures Clip(s, from, i) == Clip(s, from, to)
  {
  }

  // ---------------------------------------------------------------------------------------------
  // The controller's state

  datatype State = NoAppToBoot | BootDelay | BootCancelled | AppUpgradeInProgress | ReadyToBoot

  const ERR_INVALID_STATE := 10001
  const ERR_APP_IMAGE_TOO_LARGE := 10002
  const ERR_APP_STORAGE_WRITE_FAILURE := 10003

  datatype Core = Core(state: State, cached: Option<AppInfo>, storage: seq<bv8>)

  /** The state after the storage was searched. */
  function Verified(storage: seq<bv8>, maxSize: nat, onSuccess: State): Core {
    match Located(storage, maxSize)
    case Some(d) => Core(onSuccess, Some(d.info), storage)
    case None => Core(NoAppToBoot, None, storage)
  }

  predicate UpgradeAllowed(state: State) {
    state == BootDelay || state == BootCancelled || state == NoAppToBoot
  }

  /** First section of upgradeApp: the backend answered `res` and left the storage as `after`. */
  function Begun(c: Core, maxSize: nat, res: int, after: seq<bv8>): Core {
    if !UpgradeAllowed(c.state) then c
    else if res < 0 then Verified(after, maxSize, BootCancelled)
    else Core(AppUpgradeInProgress, None, after)
  }

  /** Last section of upgradeApp. */
  function Finished(maxSize: nat, downloadRes: int, endRes: int, after: seq<bv8>): Core {
    Verified(after, maxSize, if downloadRes < 0 || endRes < 0 then BootCancelled else BootDelay)
  }

  function Cancelled(c: Core): Core {
    if c.state == BootDelay || c.state == ReadyToBoot then c.(state := BootCancelled) else c
  }

  function Requested(c: Core): Core {
    if c.state == BootDelay || c.state == BootCancelled then c.(state := ReadyToBoot) else c
  }

  function Polled(c: Core, delayExpired: bool): Core {
    if c.state == BootDelay && delayExpired then c.(state := ReadyToBoot) else c
  }

  /** The stream a downloader writes to; each upgrade has its own. */
  class Sink {
    const maxImageSize: nat
    var offset: nat

    constructor (maxImageSize: nat)
      ensures this.maxImageSize == maxImageSize && offset == 0
    {
      this.maxImageSize := maxImageSize;
      offset := 0;
    }

    /** A mutex-protected write of the next chunk. */
    method HandleNextDataChunk(backend: StorageBackend, data: seq<bv8>) returns (res: int)
      modifies this`offset, backend
      ensures old(offset) + |data| > maxImageSize ==>
                && res == -10002 && offset == old(offset)
                && backend.storage == old(backend.storage) && backend.calls == old(backend.calls)
      ensures old(offset) + |data| <= maxImageSize ==>
                exists written: int ::
                  && backend.calls == old(backend.calls) + [Put(old(offset), data, written)]
                  && (if written >= 0 && written != |data| then res == -10003
                     && offset == old(offset)
                      else res == written && offset == old(offset) + |data|)
      ensures old(offset) <= maxImageSize ==> offset <= maxImageSize
    {
      if offset + |data| <= maxImageSize {
        res := backend.Write(offset, data);
        ghost var written := res;
        if res >= 0 && res != |data| {
          return -ERR_APP_STORAGE_WRITE_FAILURE;
        }
        offset := offset + |data|;
      } else {
        res := -ERR_APP_IMAGE_TOO_LARGE;
      }
    }
  }

  class BootController {
    const backend: StorageBackend
    const maxImageSize: nat
    const romBuffer: array<bv8>
    var state: State
    var cached: Option<AppInfo>

    function Abs(): Core
      reads this, backend
    {
      Core(state, cached, backend.storage)
    }

    predicate Ready()
      reads this
    {
      romBuffer.Length == ROM_BUFFER_SIZE
    }

    constructor (backend: StorageBackend, maxImageSize: nat)
      ensures Ready() && this.backend == backend && this.maxImageSize == maxImageSize && fresh(romBuffer)
      ensures Abs() == Verified(backend.storage, maxImageSize, BootDelay)
    {
      this.backend := backend;
      this.maxImageSize := maxImageSize;
      romBuffer := new bv8[ROM_BUFFER_SIZE](_ => 0);
      state, cached := NoAppToBoot, None;
      new;
      VerifyAppAndUpdateState(BootDelay);
    }

    /** Feeds the bytes of the storage from one offset to another into the CRC, in chunks of the buffer's size. */
    method FeedRange(crc: CRC64WE, from: nat, to: nat)
      requires Ready()
      modifies crc, romBuffer
      ensures crc.crc == Fed(old(crc.crc), Clip(backend.storage, from, to))
    {
      hide Fed;
      var i := from;
      assert Clip(backend.storage, from, from) == [];
      FedNothing(crc.crc);
      while i < to
        invariant from <= i
        invariant from == i || i <= |backend.storage|
        invariant i <= to || i == from
        invariant crc.crc == Fed(old(crc.crc), Clip(backend.storage, from, i))
      {
        var count := if romBuffer.Length < to - i then romBuffer.Length else to - i;
        ClipsJoin(backend.storage, from, i, count);
        var res := backend.Read(i, romBuffer, count);
        if res > 0 {
          FedConcat(old(crc.crc), Clip(backend.storage, from, i), romBuffer[..res]);
          crc.Add(romBuffer[..res]);
          i := i + res;
        } else {
          ClipEnds(backend.storage, from, i, to);
          return;
        }
      }
      if from > to {
        assert Clip(backend.storage, from, to) == [];
      }
    }

    /** The CRC of the image, with zeros in place of the CRC field. */
    method ComputeImageCrc(offset: nat, size: nat) returns (r: bv64)
      requires Ready()
      modifies romBuffer
      ensures r == Crc64.Crc(CrcInput(backend.storage, offset, size))
    {
      hide Fed, Clip;
      var crc := new CRC64WE();
      var crcOffset := offset + SIGNATURE_SIZE;
      ghost var a, c := Clip(backend.storage, 0, crcOffset), Clip(backend.storage, crcOffset + CRC_SIZE, size);
      FedNothing(ALL_ONES);
      FeedRange(crc, 0, crcOffset);
      crc.Add(Zeros());
      FeedRange(crc, crcOffset + CRC_SIZE, size);
      FedConcat(ALL_ONES, a, Zeros());
      FedConcat(ALL_ONES, a + Zeros(), c);
      r := crc.Get();
    }

    /** Searches the storage in steps of 8 bytes for a descriptor whose signature, size and CRC are right. */
    method LocateAppDescriptor() returns (found: Option<Descriptor>)
      requires Ready()
      modifies romBuffer
      ensures found == Located(backend.storage, maxImageSize)
    {
      hide Unpack, CrcInput, Fed, Crc64.Crc;
      var offset := 0;
      ghost var storage := backend.storage;
      while true
        invariant backend.storage == storage
        invariant Search(storage, maxImageSize, 0) == Search(storage, maxImageSize, offset)
        decreases |storage| - offset
      {
        var count := backend.Read(offset, romBuffer, STEP);
        if count != STEP {
          return None;
        }
        if romBuffer[..STEP] == SIGNATURE {
          count := backend.Read(offset, romBuffer, DESCRIPTOR_SIZE);
          if count != DESCRIPTOR_SIZE {
            return None;
          }
          var d := Unpack(romBuffer[..DESCRIPTOR_SIZE]);
          assert d == DescriptorAt(storage, offset);
          if Valid(d, maxImageSize) {
            var crc := ComputeImageCrc(offset, d.info.imageSize);
            if crc == d.info.imageCrc {
              return Some(d);
            }
          }
        } else {
          NoSignature(storage, maxImageSize, offset);
        }
        offset := offset + STEP;
      }
    }

    method VerifyAppAndUpdateState(onSuccess: State)
      requires Ready()
      modifies this`state, this`cached, romBuffer
      ensures Abs() == Verified(old(backend.storage), maxImageSize, onSuccess)
    {
      hide Located;
      var found := LocateAppDescriptor();
      match found {
        case Some(d) =>
          cached := Some(d.info);
          state := onSuccess;
        case None =>
          cached := None;
          state := NoAppToBoot;
      }
    }

    method GetState(delayExpired: bool) returns (s: State)
      modifies this`state
      ensures Abs() == Polled(old(Abs()), delayExpired) && s == state
    {
      if state == BootDelay && delayExpired {
        state := ReadyToBoot;
      }
      s := state;
    }

    method CancelBoot()
      modifies this`state
      ensures Abs() == Cancelled(old(Abs()))
    {
      match state {
        case BootDelay => state := BootCancelled;
        case ReadyToBoot => state := BootCancelled;
        case NoAppToBoot =>
        case BootCancelled =>
        case AppUpgradeInProgress =>
      }
    }

    method RequestBoot()
      modifies this`state
      ensures Abs() == Requested(old(Abs()))
    {
      match state {
        case BootDelay => state := ReadyToBoot;
        case BootCancelled => state := ReadyToBoot;
        case NoAppToBoot =>
        case AppUpgradeInProgress =>
        case ReadyToBoot =>
      }
    }

    /** The preparation stage of an upgrade; a negative result ends it. */
    method PrepareUpgrade() returns (res: int)
      requires Ready()
      modifies this`state, this`cached, romBuffer, backend
      ensures Abs() == Begun(old(Abs()), maxImageSize, res, backend.storage)
      ensures !UpgradeAllowed(old(state)) ==>
                res == -10001 && backend.calls == old(backend.calls) && Abs() == old(Abs())
      ensures UpgradeAllowed(old(state)) ==> backend.calls == old(backend.calls) + [Begin(res)]
    {
      hide Located;
      match state {
        case BootDelay =>
        case BootCancelled =>
        case NoAppToBoot =>
        case ReadyToBoot => return -ERR_INVALID_STATE;
        case AppUpgradeInProgress => return -ERR_INVALID_STATE;
      }
      state := AppUpgradeInProgress;
      cached := None;
      res := backend.BeginUpgrade();
      if res < 0 {
        VerifyAppAndUpdateState(BootCancelled);
      }
    }

    /** The finalization stage, after the download ended with result `downloadRes`. */
    method FinalizeUpgrade(downloadRes: int) returns (res: int, ghost ended: int)
      requires Ready() && state == AppUpgradeInProgress
      modifies this`state, this`cached, romBuffer, backend
      ensures backend.calls == old(backend.calls) + [End(downloadRes >= 0, ended)]
      ensures res == if downloadRes < 0 then downloadRes else if ended < 0 then ended else 0
      ensures Abs() == Finished(maxImageSize, downloadRes, ended, backend.storage)
    {
      hide Located;
      state := NoAppToBoot;
      if downloadRes < 0 {
        var ignored := backend.EndUpgrade(false);
        ended := ignored;
        VerifyAppAndUpdateState(BootCancelled);
        res := downloadRes;
        return;
      }
      res := backend.EndUpgrade(true);
      ended := res;
      if res < 0 {
        VerifyAppAndUpdateState(BootCancelled);
        return;
      }
      VerifyAppAndUpdateState(BootDelay);
      res := 0;
    }
  }

  lemma FedNothing(crc: bv64)
    ensures Fed(crc, []) == crc
  {
  }

  lemma NoSignature(storage: seq<bv8>, maxSize: nat, offset: nat)
    requires offset + SIGNATURE_SIZE <= |storage| && storage[offset..offset + SIGNATURE_SIZE] != SIGNATURE
    ensures !Accepts(storage, maxSize, offset)
  {
    hide Scalars.Assemble, CrcInput;
    if offset + DESCRIPTOR_SIZE <= |storage| {
      assert DescriptorAt(storage, offset).signature == storage[offset..offset + SIGNATURE_SIZE];
    }
  }

  // ---------------------------------------------------------------------------------------------
  // Interleavings of the mutex-protected sections

  /** The controller, and the threads whose upgrade is between preparation and finalization, with their sinks'
      offsets. */
  datatype System = System(core: Core, upgrades: map<nat, nat>)

  /** One mutex-protected section; `res` and `after` are what the backend answers and the contents it leaves. */
  datatype Section =
    | Prepare(thread: nat, res: int, after: seq<bv8>)
    | Chunk(thread: nat, data: seq<bv8>, res: int, after: seq<bv8>)
    | Finalize(thread: nat, downloadRes: int, endRes: int, after: seq<bv8>)
    | Poll(delayExpired: bool)
    | Cancel
    | Request

  /** A thread prepares an upgrade when it has none under way, and writes and finalizes only one under way. */
  predicate Enabled(s: System, e: Section) {
    match e
    case Prepare(t, _, _) => t !in s.upgrades
    case Chunk(t, _, _, _) => t in s.upgrades
    case Finalize(t, _, _, _) => t in s.upgrades
    case _ => true
  }

  predicate ChunkAccepted(maxSize: nat, offset: nat, data: seq<bv8>) {
    offset + |data| <= maxSize
  }

  function Step(s: System, maxSize: nat, e: Section): System
    requires Enabled(s, e)
  {
    match e
    case Prepare(t, res, after) =>
      System(Begun(s.core, maxSize, res, after),
             if UpgradeAllowed(s.core.state) && res >= 0 then s.upgrades[t := 0] else s.upgrades)
    case Chunk(t, data, res, after) =>
      if !ChunkAccepted(maxSize, s.upgrades[t], data) then s
      else System(s.core.(storage := after),
                  if res >= 0 && res != |data| then s.upgrades else s.upgrades[t := s.upgrades[t] + |data|])
    case Finalize(t, downloadRes, endRes, after) =>
      System(Finished(maxSize, downloadRes, endRes, after), s.upgrades - {t})
    case Poll(delayExpired) => s.(core := Polled(s.core, delayExpired))
    case Cancel => s.(core := Cancelled(s.core))
    case Request => s.(core := Requested(s.core))
  }

  predicate HasApp(state: State) {
    state == BootDelay || state == BootCancelled || state == ReadyToBoot
  }

  /** At most one upgrade is under way, exactly while the state says so; and the cached application information is there
      exactly if an application can be booted, and is that of the application in the storage. */
  predicate Safe(s: System, maxSize: nat) {
    && (s.core.state == AppUpgradeInProgress <==> s.upgrades != map[])
    && (forall t, u | t in s.upgrades && u in s.upgrades :: t == u)
    && (forall t | t in s.upgrades :: s.upgrades[t] <= maxSize)
    && (s.core.cached.Some? <==> HasApp(s.core.state))
    && (s.core.cached.Some? ==>
          Located(s.core.storage, maxSize).Some? && s.core.cached.value == Located(s.core.storage, maxSize).value.info)
  }

  lemma VerifiedSafe(storage: seq<bv8>, maxSize: nat, onSuccess: State)
    requires HasApp(onSuccess)
    ensures Safe(System(Verified(storage, maxSize, onSuccess), map[]), maxSize)
  {
  }

  /** Every section keeps the controller safe. The storage is only written during an upgrade, and when an upgrade is
      finalized the state is what the controller asserts. */
  lemma SectionSafe(s: System, maxSize: nat, e: Section)
    requires Safe(s, maxSize) && Enabled(s, e)
    ensures Safe(Step(s, maxSize, e), maxSize)
    ensures e.Chunk? ==> s.core.state == AppUpgradeInProgress
    ensures e.Finalize? ==> s.core.state == AppUpgradeInProgress
    ensures !e.Prepare? && s.core.state != AppUpgradeInProgress ==> Step(s, maxSize, e).core.storage == s.core.storage
    ensures e.Prepare? && !UpgradeAllowed(s.core.state) ==> Step(s, maxSize, e) == s
  {
    hide Located;
    match e {
      case Prepare(t, res, after) =>
        if s.core.state != AppUpgradeInProgress {
          assert s.upgrades == map[];
        }
      case Chunk(t, _, _, _) => UnderWay(s, maxSize, t);
      case Finalize(t, _, _, _) =>
        UnderWay(s, maxSize, t);
        assert s.upgrades - {t} == map[];
      case _ =>
    }
  }

  lemma UnderWay(s: System, maxSize: nat, t: nat)
    requires Safe(s, maxSize) && t in s.upgrades
    ensures s.core.state == AppUpgradeInProgress && s.core.cached.None?
  {
    assert s.upgrades != map[];
  }

  predicate IsRun(s: System, maxSize: nat, sections: seq<Section>)
    decreases |sections|
  {
    sections != [] ==> Enabled(s, sections[0]) && IsRun(Step(s, maxSize, sections[0]), maxSize, sections[1..])
  }

  function Run(s: System, maxSize: nat, sections: seq<Section>): System
    requires IsRun(s, maxSize, sections)
    decreases |sections|
  {
    if sections == [] then s else Run(Step(s, maxSize, sections[0]), maxSize, sections[1..])
  }

  lemma {:induction false} RunSafe(s: System, maxSize: nat, sections: seq<Section>)
    requires Safe(s, maxSize) && IsRun(s, maxSize, sections)
    ensures Safe(Run(s, maxSize, sections), maxSize)
    decreases |sections|
  {
    hide Safe, Enabled, Step;
    if sections != [] {
      SectionSafe(s, maxSize, sections[0]);
      RunSafe(Step(s, maxSize, sections[0]), maxSize, sections[1..]);
    }
  }

  // ---------------------------------------------------------------------------------------------
  // When booting is allowed

  /** When a section takes the controller into ReadyToBoot: on a request while an application waits, or when its delay
      has expired. */
  lemma ReadyEntered(s: System, maxSize: nat, e: Section)
    requires Safe(s, maxSize) && Enabled(s, e) && s.core.state != ReadyToBoot
    ensures Step(s, maxSize, e).core.state == ReadyToBoot <==>
            || (e.Request? && (s.core.state == BootDelay || s.core.state == BootCancelled))
            || (e.Poll? && e.delayExpired && s.core.state == BootDelay)
  {
    hide Located;
  }

  /** When the delay starts: after an upgrade that neither the download nor the backend has failed, if what is now in
      the storage is a valid application. */
  lemma DelayEntered(s: System, maxSize: nat, e: Section)
    requires Safe(s, maxSize) && Enabled(s, e) && s.core.state != BootDelay
    ensures Step(s, maxSize, e).core.state == BootDelay <==>
            e.Finalize? && e.downloadRes >= 0 && e.endRes >= 0 && Located(e.after, maxSize).Some?
  {
    hide Located;
  }

  /** When booting is cancelled: on request, or after an upgrade that failed if there still is a valid application. */
  lemma CancelledEntered(s: System, maxSize: nat, e: Section)
    requires Safe(s, maxSize) && Enabled(s, e) && s.core.state != BootCancelled
    ensures Step(s, maxSize, e).core.state == BootCancelled <==>
            || (e.Cancel? && (s.core.state == BootDelay || s.core.state == ReadyToBoot))
            || (e.Prepare? && UpgradeAllowed(s.core.state) && e.res < 0 && Located(e.after, maxSize).Some?)
            || (e.Finalize? && (e.downloadRes < 0 || e.endRes < 0) && Located(e.after, maxSize).Some?)
  {
    hide Located;
  }

  /** When an upgrade starts: from any state but ReadyToBoot and an upgrade itself, if the backend agrees. */
  lemma UpgradeEntered(s: System, maxSize: nat, e: Section)
    requires Safe(s, maxSize) && Enabled(s, e) && s.core.state != AppUpgradeInProgress
    ensures Step(s, maxSize, e).core.state == AppUpgradeInProgress <==>
            e.Prepare? && e.res >= 0 && s.core.state != ReadyToBoot
  {
    hide Located;
  }

  /** Neither a request to boot nor any part of an upgrade. */
  predicate Passive(e: Section) {
    e.Poll? || e.Cancel? || e.Chunk?
  }

  predicate AllPassive(sections: seq<Section>) {
    forall i | 0 <= i < |sections| :: Passive(sections[i])
  }

  /** Without an application, or after booting was cancelled, time alone boots nothing. */
  lemma {:induction false} StaysDown(s: System, maxSize: nat, sections: seq<Section>)
    requires Safe(s, maxSize) && IsRun(s, maxSize, sections) && AllPassive(sections)
    requires s.core.state == BootCancelled || s.core.state == NoAppToBoot
    ensures Run(s, maxSize, sections).core.state == s.core.state
    decreases |sections|
  {
    hide Located;
    if sections != [] {
      var e := sections[0];
      SectionSafe(s, maxSize, e);
      assert Passive(e);
      StaysDown(Step(s, maxSize, e), maxSize, sections[1..]);
    }
  }

  /** A boot that was cancelled stays cancelled. */
  lemma CancelHolds(s: System, maxSize: nat, sections: seq<Section>)
    requires Safe(s, maxSize) && IsRun(s, maxSize, [Cancel] + sections) && AllPassive(sections)
    requires s.core.state == BootDelay || s.core.state == ReadyToBoot
    ensures Run(s, maxSize, [Cancel] + sections).core.state == BootCancelled
  {
    hide Located;
    assert ([Cancel] + sections)[1..] == sections;
    SectionSafe(s, maxSize, Cancel);
    StaysDown(Step(s, maxSize, Cancel), maxSize, sections);
  }

  /** Nor does anything boot after an upgrade that has failed. */
  lemma FailureHolds(s: System, maxSize: nat, e: Section, sections: seq<Section>)
    requires Safe(s, maxSize) && IsRun(s, maxSize, [e] + sections) && AllPassive(sections)
    requires (e.Finalize? && (e.downloadRes < 0 || e.endRes < 0))
          || (e.Prepare? && UpgradeAllowed(s.core.state) && e.res < 0)
    ensures Run(s, maxSize, [e] + sections).core.state ==
            if Located(e.after, maxSize).Some? then BootCancelled else NoAppToBoot
  {
    hide Located;
    assert ([e] + sections)[1..] == sections;
    SectionSafe(s, maxSize, e);
    StaysDown(Step(s, maxSize, e), maxSize, sections);
  }

  /** From power-on, however the sections of any number of threads interleave: when the controller says that the
      application may be booted, a valid one is in the storage, and the controller reports that very application. */
  lemma ReadyMeansVerified(storage: seq<bv8>, maxSize: nat, sections: seq<Section>)
    requires IsRun(System(Verified(storage, maxSize, BootDelay), map[]), maxSize, sections)
    ensures var c := Run(System(Verified(storage, maxSize, BootDelay), map[]), maxSize, sections).core;
            c.state == ReadyToBoot ==>
              exists o: nat, d: Descriptor :: FoundAt(c.storage, maxSize, o, d) && c.cached == Some(d.info)
  {
    hide Located, Verified, IsRun, Run;
    VerifiedSafe(storage, maxSize, BootDelay);
    RunSafe(System(Verified(storage, maxSize, BootDelay), map[]), maxSize, sections);
    var c := Run(System(Verified(storage, maxSize, BootDelay), map[]), maxSize, sections).core;
    if c.state == ReadyToBoot {
      LocatedIs(c.storage, maxSize, Located(c.storage, maxSize).value);
    }
  }

  // ---------------------------------------------------------------------------------------------
  // A faultless upgrade

  function Overwritten(storage: seq<bv8>, offset: nat, data: seq<bv8>): (s: seq<bv8>)
    requires offset + |data| <= |storage|
    ensures |s| == |storage|
  {
    storage[..offset] + data + storage[offset + |data|..]
  }

  /** The sections of one thread that writes an image chunk by chunk, with a backend that stores what it is given. */
  function Chunks(thread: nat, storage: seq<bv8>, offset: nat, chunks: seq<seq<bv8>>): seq<Section>
    requires offset + Total(chunks) <= |storage|
    decreases |chunks|
  {
    if chunks == [] then []
    else
      var after := Overwritten(storage, offset, chunks[0]);
      [Chunk(thread, chunks[0], |chunks[0]|, after)] + Chunks(thread, after, offset + |chunks[0]|, chunks[1..])
  }

  function Total(chunks: seq<seq<bv8>>): nat {
    if chunks == [] then 0 else |chunks[0]| + Total(chunks[1..])
  }

  function Joined(chunks: seq<seq<bv8>>): (s: seq<bv8>)
    ensures |s| == Total(chunks)
  {
    if chunks == [] then [] else chunks[0] + Joined(chunks[1..])
  }

  lemma {:induction false} ChunksWrite(s: System, maxSize: nat, thread: nat, chunks: seq<seq<bv8>>)
    requires thread in s.upgrades && s.upgrades[thread] + Total(chunks) <= maxSize
    requires s.upgrades[thread] + Total(chunks) <= |s.core.storage|
    ensures var offset := s.upgrades[thread]; var run := Chunks(thread, s.core.storage, offset, chunks);
            && IsRun(s, maxSize, run)
            && Run(s, maxSize, run) == System(s.core.(storage := Overwritten(s.core.storage, offset, Joined(chunks))),
                                              s.upgrades[thread := offset + Total(chunks)])
    decreases |chunks|
  {
    hide Overwritten, Located, Begun, Finished;
    var offset := s.upgrades[thread];
    if chunks == [] {
      NothingWritten(s.core.storage, offset);
      assert s.upgrades[thread := offset] == s.upgrades;
    } else {
      var after := Overwritten(s.core.storage, offset, chunks[0]);
      var e := Chunk(thread, chunks[0], |chunks[0]|, after);
      var next := Step(s, maxSize, e);
      ChunksWrite(next, maxSize, thread, chunks[1..]);
      var run := Chunks(thread, s.core.storage, offset, chunks);
      assert run[1..] == Chunks(thread, after, offset + |chunks[0]|, chunks[1..]);
      WritesJoin(s.core.storage, offset, chunks[0], Joined(chunks[1..]));
      assert s.upgrades[thread := offset + |chunks[0]|][thread := offset + Total(chunks)] ==
             s.upgrades[thread := offset + Total(chunks)];
    }
  }

  lemma NothingWritten(storage: seq<bv8>, offset: nat)
    requires offset <= |storage|
    ensures Overwritten(storage, offset, []) == storage
  {
  }

  lemma WritesJoin(storage: seq<bv8>, offset: nat, a: seq<bv8>, b: seq<bv8>)
    requires offset + |a| + |b| <= |storage|
    ensures Overwritten(Overwritten(storage, offset, a), offset + |a|, b) == Overwritten(storage, offset, a + b)
  {
  }

  lemma {:induction false} RunsCompose(s: System, maxSize: nat, a: seq<Section>, b: seq<Section>)
    requires IsRun(s, maxSize, a) && IsRun(Run(s, maxSize, a), maxSize, b)
    ensures IsRun(s, maxSize, a + b) && Run(s, maxSize, a + b) == Run(Run(s, maxSize, a), maxSize, b)
    decreases |a|
  {
    hide Enabled, Step;
    if a == [] {
      assert a + b == b;
    } else {
      RunsCompose(Step(s, maxSize, a[0]), maxSize, a[1..], b);
      assert (a + b)[1..] == a[1..] + b;
    }
  }

  lemma RunOne(s: System, maxSize: nat, e: Section)
    requires Enabled(s, e)
    ensures IsRun(s, maxSize, [e]) && Run(s, maxSize, [e]) == Step(s, maxSize, e)
  {
    hide Enabled, Step;
    assert [e][1..] == [];
  }

  /** An upgrade from preparation to finalization in which nothing fails, however the image is cut into chunks. */
  function Upgrade(thread: nat, storage: seq<bv8>, chunks: seq<seq<bv8>>): seq<Section>
    requires Total(chunks) <= |storage|
  {
    [Prepare(thread, 0, storage)] + Chunks(thread, storage, 0, chunks)
    + [Finalize(thread, 0, 0, Overwritten(storage, 0, Joined(chunks)))]
  }

  /** It leaves the image in the storage and the verdict about it in the state. */
  lemma FaultlessUpgrade(s: System, maxSize: nat, thread: nat, chunks: seq<seq<bv8>>)
    requires Safe(s, maxSize) && UpgradeAllowed(s.core.state)
    requires Total(chunks) <= |s.core.storage| && Total(chunks) <= maxSize
    ensures s.upgrades == map[]
    ensures var run := Upgrade(thread, s.core.storage, chunks);
            && IsRun(s, maxSize, run)
            && Run(s, maxSize, run) ==
               System(Verified(Overwritten(s.core.storage, 0, Joined(chunks)), maxSize, BootDelay), map[])
  {
    hide Verified, IsRun, Run;
    var storage := s.core.storage;
    var first, middle := [Prepare(thread, 0, storage)], Chunks(thread, storage, 0, chunks);
    var last := Finalize(thread, 0, 0, Overwritten(storage, 0, Joined(chunks)));
    RunOne(s, maxSize, first[0]);
    var begun := Run(s, maxSize, first);
    assert begun == System(Core(AppUpgradeInProgress, None, storage), map[thread := 0]);
    ChunksWrite(begun, maxSize, thread, chunks);
    RunsCompose(s, maxSize, first, middle);
    var written := Run(begun, maxSize, middle);
    RunOne(written, maxSize, last);
    RunsCompose(s, maxSize, first + middle, [last]);
    assert written.upgrades - {thread} == map[];
  }
}

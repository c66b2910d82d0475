/** The configuration parameter pool: values in RAM, saved to and restored from a storage that may fail or hold
    anything. */
module ConfigStore {
  import opened PoolCrc
  import opened Polynomials

  const PARAMS_MAX := 40
  const OFFSET_LAYOUT_HASH := 0
  const OFFSET_CRC := 4
  const OFFSET_VALUES := 8

  const RESTORED := 1
  const LAYOUT_MISMATCH := 2
  const CRC_MISMATCH := 3

  const ENOENT := 2
  const EINVAL := 22

  /** A floating point value, by its 32 bits. */
  type Float = bv32

  datatype Kind = Bool | Int | Real

  datatype Param = Param(name: seq<bv8>, default_: Float, min: Float, max: Float, kind: Kind)

  /** Whether a value suits a parameter: finite, of the right kind, within its limits. */
  type Validity = (Param, Float) -> bool

  // ---------------------------------------------------------------------------------------------
  // The layout of the storage

  function WordBytes(v: bv32): (b: seq<bv8>)
    ensures |b| == 4
  {
    [(v & 0xFF) as bv8, ((v >> 8) & 0xFF) as bv8, ((v >> 16) & 0xFF) as bv8, ((v >> 24) & 0xFF) as bv8]
  }

  function Joined(a: bv8, b: bv8, c: bv8, d: bv8): bv32 {
    (a as bv32) | ((b as bv32) << 8) | ((c as bv32) << 16) | ((d as bv32) << 24)
  }

  function WordOf(b: seq<bv8>): bv32
    requires |b| == 4
  {
    Joined(b[0], b[1], b[2], b[3])
  }

  /** Words are stored least significant byte first. */
  lemma WordBits(v: bv32)
    ensures Message(BitsUp, WordBytes(v)) == PoolCrc.Bits(v)
  {
    hide LowerByte, Right8, BitsUp, PoolCrc.Bits, WordBytes, Message;
    WordParts(v);
    FourBytes(v);
    MessageFour(BitsUp, LowerByte(v), LowerByte(Right8(v)), LowerByte(Right8(Right8(v))),
                LowerByte(Right8(Right8(Right8(v)))));
  }

  lemma WordParts(v: bv32)
    ensures WordBytes(v) == [LowerByte(v), LowerByte(Right8(v)), LowerByte(Right8(Right8(v))),
                             LowerByte(Right8(Right8(Right8(v))))]
  {
  }

  lemma WordRoundTrip(v: bv32)
    ensures WordOf(WordBytes(v)) == v
  {
  }

  /** The pool as it lies in memory. */
  function PoolBytes(values: seq<Float>): (b: seq<bv8>)
    ensures |b| == 4 * |values|
  {
    if values == [] then [] else WordBytes(values[0]) + PoolBytes(values[1..])
  }

  function PoolOf(b: seq<bv8>): (values: seq<Float>)
    requires |b| % 4 == 0
    ensures |values| == |b| / 4
  {
    if b == [] then [] else [WordOf(b[..4])] + PoolOf(b[4..])
  }

  lemma {:induction false} PoolRoundTrip(values: seq<Float>)
    ensures PoolOf(PoolBytes(values)) == values
  {
    hide WordOf, WordBytes;
    if values != [] {
      WordRoundTrip(values[0]);
      PoolRoundTrip(values[1..]);
      assert PoolBytes(values)[..4] == WordBytes(values[0]) && PoolBytes(values)[4..] == PoolBytes(values[1..]);
    }
  }

  lemma {:induction false} BytesRoundTrip(b: seq<bv8>)
    requires |b| % 4 == 0
    ensures PoolBytes(PoolOf(b)) == b
  {
    hide WordOf, WordBytes;
    if b != [] {
      BytesOfWord(b[..4]);
      BytesRoundTrip(b[4..]);
      assert PoolOf(b)[1..] == PoolOf(b[4..]);
      assert b == b[..4] + b[4..];
    }
  }

  lemma BytesOfWord(b: seq<bv8>)
    requires |b| == 4
    ensures WordBytes(WordOf(b)) == b
  {
    hide Joined;
    JoinedBytes(b[0], b[1], b[2], b[3]);
  }

  lemma JoinedBytes(a: bv8, b: bv8, c: bv8, d: bv8)
    ensures WordBytes(Joined(a, b, c, d)) == [a, b, c, d]
  {
  }

  // ---------------------------------------------------------------------------------------------
  // The storage

  /** A result of 0 means that the operation was carried out; after a negative one the data, read or stored, may be
      anything. What erasing leaves is not specified. */
  class Storage {
    var bytes: seq<bv8>

    constructor (bytes: seq<bv8>)
      ensures this.bytes == bytes
    {
      this.bytes := bytes;
    }

    method Read(offset: nat, length: nat) returns (res: int, data: seq<bv8>)
      ensures |data| == length && res <= 0
      ensures res == 0 ==> offset + length <= |bytes| && data == bytes[offset..offset + length]
    {
      data := *;
      if |data| != length {
        data := seq(length, _ => 0);
      }
      res := *;
      if res > 0 || (res == 0 && offset + length > |bytes|) {
        res := -EINVAL;
      }
      if res == 0 {
        data := bytes[offset..offset + length];
      }
    }

    method Write(offset: nat, data: seq<bv8>) returns (res: int)
      modifies this
      ensures res <= 0
      ensures res == 0 ==>
                && offset + |data| <= |old(bytes)|
                && bytes == old(bytes)[..offset] + data + old(bytes)[offset + |data|..]
    {
      res := *;
      if res > 0 || (res == 0 && offset + |data| > |bytes|) {
        res := -EINVAL;
      }
      if res == 0 {
        bytes := bytes[..offset] + data + bytes[offset + |data|..];
      } else {
        bytes := *;
      }
    }

    method Erase() returns (res: int)
      modifies this
      ensures res <= 0
    {
      bytes := *;
      res := *;
      if res > 0 {
        res := -EINVAL;
      }
    }
  }

  /** The storage holds this layout hash, this CRC and these values. */
  predicate Holds(bytes: seq<bv8>, layoutHash: bv32, crc: bv32, values: seq<Float>) {
    && OFFSET_VALUES + 4 * |values| <= |bytes|
    && bytes[OFFSET_LAYOUT_HASH..OFFSET_CRC] == WordBytes(layoutHash)
    && bytes[OFFSET_CRC..OFFSET_VALUES] == WordBytes(crc)
    && bytes[OFFSET_VALUES..OFFSET_VALUES + 4 * |values|] == PoolBytes(values)
  }

  // ---------------------------------------------------------------------------------------------
  // The pool

  function Defaults(params: seq<Param>): (d: seq<Float>)
    ensures |d| == |params|
  {
    seq(|params|, i requires 0 <= i < |params| => params[i].default_)
  }

  /** Restored values, with the default in place of each one that is not valid. */
  function Repaired(valid: Validity, params: seq<Param>, values: seq<Float>): (r: seq<Float>)
    requires |values| == |params|
    ensures |r| == |params|
  {
    seq(|params|, i requires 0 <= i < |params| => if valid(params[i], values[i]) then values[i] else params[i].default_)
  }

  predicate AllValid(valid: Validity, params: seq<Param>, values: seq<Float>) {
    |values| == |params| && forall i | 0 <= i < |params| :: valid(params[i], values[i])
  }

  /** Names are unique, and every default is valid. */
  predicate WellRegistered(valid: Validity, params: seq<Param>) {
    && |params| <= PARAMS_MAX
    && (forall i, j | 0 <= i < j < |params| :: params[i].name != params[j].name)
    && AllValid(valid, params, Defaults(params))
  }

  function LayoutHash(params: seq<Param>): bv32 {
    if params == [] then 0 else Crc32(LayoutHash(params[..|params| - 1]), params[|params| - 1].name)
  }

  function IndexOf(params: seq<Param>, name: seq<bv8>): (i: nat)
    ensures i <= |params| && (i < |params| ==> params[i].name == name)
            && forall j | 0 <= j < i :: params[j].name != name
  {
    if params == [] || params[0].name == name then 0 else 1 + IndexOf(params[1..], name)
  }

  lemma IndexIs(params: seq<Param>, name: seq<bv8>, i: nat)
    requires i <= |params| && (i < |params| ==> params[i].name == name)
            && forall j | 0 <= j < i :: params[j].name != name
    ensures IndexOf(params, name) == i
  {
  }

  class ConfigPool {
    const valid: Validity
    var params: seq<Param>
    var values: seq<Float>
    var layoutHash: bv32
    var frozen: bool
    var modificationCount: nat
    var storage: Storage?

    constructor (valid: Validity)
      ensures this.valid == valid && Valid() && !frozen && params == []
    {
      this.valid := valid;
      params, values, layoutHash, frozen, modificationCount, storage := [], [], 0, false, 0, null;
    }

    /** At all times every value is valid for its parameter. */
    ghost predicate Valid()
      reads this
    {
      WellRegistered(valid, params) && AllValid(valid, params, values) && layoutHash == LayoutHash(params)
      && (frozen ==> storage != null)
    }

    /** Registers a parameter, before initialization. A wrong registration halts the system. */
    method Register(param: Param)
      requires Valid() && !frozen && |params| < PARAMS_MAX
      requires valid(param, param.default_) && IndexOf(params, param.name) == |params|
      modifies this`params, this`values, this`layoutHash
      ensures Valid() && params == old(params) + [param] && values == old(values) + [param.default_]
    {
      hide Crc32, WellRegistered, AllValid, IndexOf, LayoutHash;
      layoutHash := ComputeCrc32(layoutHash, param.name);
      params := params + [param];
      values := values + [param.default_];
      OneMore(valid, old(params), old(values), param);
    }

    method ReinitializeDefaults()
      requires |values| == |params|
      modifies this`values
      ensures values == Defaults(params)
    {
      for i := 0 to |params|
        invariant |values| == |params| && forall j | 0 <= j < i :: values[j] == params[j].default_
      {
        values := values[i := params[i].default_];
      }
    }

    /** Replaces what is not valid. */
    method Repair()
      requires |values| == |params|
      modifies this`values
      ensures values == Repaired(valid, params, old(values))
    {
      for i := 0 to |params|
        invariant |values| == |params| && forall j | 0 <= j < i :: values[j] == Repaired(valid, params, old(values))[j]
        invariant forall j | i <= j < |params| :: values[j] == old(values)[j]
      {
        if !valid(params[i], values[i]) {
          values := values[i := params[i].default_];
        }
      }
    }

    /** Restores the values if layout and CRC agree, and falls back to the defaults otherwise. */
    method Init(s: Storage) returns (result: int)
      requires Valid() && !frozen
      modifies this`values, this`frozen, this`storage
      ensures Valid() && frozen && storage == s
      ensures Initialized(valid, params, s.bytes, result, values)
    {
      hide Crc32, WordBytes, WordOf, LayoutHash, WellRegistered, AllValid, Repaired, Defaults, PoolOf, PoolBytes;
      storage := s;
      frozen := true;
      SameLength(valid, params, values);
      DefaultsValid(valid, params);
      var poolLength := 4 * |params|;
      var res, stored := s.Read(OFFSET_LAYOUT_HASH, 4);
      if res != 0 {
        ReinitializeDefaults();
        return res;
      }
      if WordOf(stored) == layoutHash {
        WordsDiffer(stored, layoutHash);
        var pool, crc;
        res, pool := s.Read(OFFSET_VALUES, poolLength);
        values := PoolOf(pool);
        if res != 0 {
          ReinitializeDefaults();
          return res;
        }
        BytesRoundTrip(pool);
        var trueCrc := ComputeCrc32(0, PoolBytes(values));
        res, crc := s.Read(OFFSET_CRC, 4);
        if res != 0 {
          ReinitializeDefaults();
          return res;
        }
        WordsDiffer(crc, trueCrc);
        if trueCrc == WordOf(crc) {
          RepairedValid(valid, params, values);
          Repair();
          result := RESTORED;
        } else {
          ReinitializeDefaults();
          result := CRC_MISMATCH;
        }
      } else {
        WordsDiffer(stored, layoutHash);
        ReinitializeDefaults();
        result := LAYOUT_MISMATCH;
      }
    }

    method IndexByName(name: seq<bv8>) returns (index: int)
      ensures index == if IndexOf(params, name) < |params| then IndexOf(params, name) else -1
    {
      for i := 0 to |params|
        invariant forall j | 0 <= j < i :: params[j].name != name
      {
        if params[i].name == name {
          IndexIs(params, name, i);
          return i;
        }
      }
      IndexIs(params, name, |params|);
      index := -1;
    }

    /** Sets a value, if there is such a parameter and the value suits it. */
    method Set(name: seq<bv8>, value: Float) returns (result: int)
      requires Valid() && frozen
      modifies this`values, this`modificationCount
      ensures Valid()
      ensures var i := IndexOf(params, name);
              && result == (if i == |params| then -2 else if !valid(params[i], value) then -22 else 0)
              && values == (if result == 0 then old(values)[i := value] else old(values))
              && modificationCount ==
                 if result == 0 then (old(modificationCount) + 1) % 0x1_0000_0000 else old(modificationCount)
    {
      hide WellRegistered, AllValid, LayoutHash, IndexOf;
      SameLength(valid, params, values);
      var index := IndexByName(name);
      if index < 0 {
        return -ENOENT;
      }
      if !valid(params[index], value) {
        return -EINVAL;
      }
      ValidChanged(valid, params, values, index, value);
      modificationCount := (modificationCount + 1) % 0x1_0000_0000;
      values := values[index := value];
      result := 0;
    }

    /** The value of a parameter. */
    method Get(name: seq<bv8>) returns (value: Float)
      requires Valid() && frozen && IndexOf(params, name) < |params|
      ensures value == values[IndexOf(params, name)] && valid(params[IndexOf(params, name)], value)
    {
      var index := IndexByName(name);
      value := values[index];
    }

    /** Erases the storage, and with it all that was set. */
    method Erase() returns (result: int)
      requires Valid() && frozen
      modifies this`values, this`modificationCount, storage
      ensures Valid() && result <= 0
      ensures values == (if result == 0 then Defaults(params) else old(values))
      ensures modificationCount ==
              if result == 0 then (old(modificationCount) + 1) % 0x1_0000_0000 else old(modificationCount)
    {
      DefaultsValid(valid, params);
      result := storage.Erase();
      if result >= 0 {
        ReinitializeDefaults();
        modificationCount := (modificationCount + 1) % 0x1_0000_0000;
      }
    }

    /** Writes layout hash, CRC and values. */
    method Save() returns (result: int)
      requires Valid() && frozen
      modifies storage
      ensures Valid() && result <= 0
      ensures result == 0 ==> Holds(storage.bytes, layoutHash, Crc32(0, PoolBytes(values)), values)
    {
      hide Crc32, WordBytes, LayoutHash, Holds;
      result := storage.Erase();
      if result != 0 {
        return;
      }
      ghost var pool := PoolBytes(values);
      ghost var a := storage.bytes;
      result := storage.Write(OFFSET_LAYOUT_HASH, WordBytes(layoutHash));
      if result != 0 {
        return;
      }
      ghost var b := storage.bytes;
      var trueCrc := ComputeCrc32(0, PoolBytes(values));
      result := storage.Write(OFFSET_CRC, WordBytes(trueCrc));
      if result != 0 {
        return;
      }
      ghost var c := storage.bytes;
      result := storage.Write(OFFSET_VALUES, PoolBytes(values));
      if result == 0 {
        WritesHold(a, b, c, storage.bytes, layoutHash, trueCrc, values);
      }
    }
  }

  lemma OneMore(valid: Validity, params: seq<Param>, values: seq<Float>, param: Param)
    requires WellRegistered(valid, params) && AllValid(valid, params, values) && |params| < PARAMS_MAX
    requires valid(param, param.default_) && IndexOf(params, param.name) == |params|
    ensures WellRegistered(valid, params + [param]) && AllValid(valid, params + [param], values + [param.default_])
    ensures LayoutHash(params + [param]) == Crc32(LayoutHash(params), param.name)
  {
    hide Crc32, AllValid, IndexOf, Defaults;
    var more := params + [param];
    assert more[..|more| - 1] == params;
    DefaultsMore(params, param);
    ValidMore(valid, params, values, param, param.default_);
    ValidMore(valid, params, Defaults(params), param, param.default_);
  }

  lemma DefaultsMore(params: seq<Param>, param: Param)
    ensures Defaults(params + [param]) == Defaults(params) + [param.default_]
  {
  }

  lemma ValidMore(valid: Validity, params: seq<Param>, values: seq<Float>, param: Param, value: Float)
    requires AllValid(valid, params, values) && valid(param, value)
    ensures AllValid(valid, params + [param], values + [value])
  {
    forall i | 0 <= i < |params| + 1 ensures valid((params + [param])[i], (values + [value])[i]) {
      if i < |params| {
        assert valid(params[i], values[i]);
      }
    }
  }

  lemma ValidChanged(valid: Validity, params: seq<Param>, values: seq<Float>, i: nat, v: Float)
    requires AllValid(valid, params, values) && i < |params| && valid(params[i], v)
    ensures |values| == |params| && AllValid(valid, params, values[i := v])
  {
  }

  lemma SameLength(valid: Validity, params: seq<Param>, values: seq<Float>)
    requires AllValid(valid, params, values)
    ensures |values| == |params|
  {
  }

  lemma DefaultsValid(valid: Validity, params: seq<Param>)
    requires WellRegistered(valid, params)
    ensures AllValid(valid, params, Defaults(params))
  {
  }

  lemma RepairedValid(valid: Validity, params: seq<Param>, values: seq<Float>)
    requires WellRegistered(valid, params) && |values| == |params|
    ensures AllValid(valid, params, Repaired(valid, params, values))
  {
    forall i | 0 <= i < |params| ensures valid(params[i], Repaired(valid, params, values)[i]) {
      assert Defaults(params)[i] == params[i].default_;
    }
  }

  lemma WordsDiffer(b: seq<bv8>, v: bv32)
    requires |b| == 4
    ensures WordOf(b) == v <==> b == WordBytes(v)
  {
    hide WordOf, WordBytes;
    BytesOfWord(b);
    WordRoundTrip(v);
  }

  lemma WritesHold(a: seq<bv8>, b: seq<bv8>, c: seq<bv8>, d: seq<bv8>, layoutHash: bv32, crc: bv32, values: seq<Float>)
    requires 4 <= |a| && b == a[..0] + WordBytes(layoutHash) + a[4..]
    requires 8 <= |b| && c == b[..4] + WordBytes(crc) + b[8..]
    requires 8 + 4 * |values| <= |c| && d == c[..8] + PoolBytes(values) + c[8 + 4 * |values|..]
    ensures Holds(d, layoutHash, crc, values)
  {
    hide WordBytes, PoolBytes;
    ThreeWrites(a, b, c, d, WordBytes(layoutHash), WordBytes(crc), PoolBytes(values), 8 + 4 * |values|);
  }

  lemma ThreeWrites(a: seq<bv8>, b: seq<bv8>, c: seq<bv8>, d: seq<bv8>, hash: seq<bv8>, crc: seq<bv8>, pool: seq<bv8>,
                    end: nat)
    requires |hash| == |crc| == 4 && end == 8 + |pool|
    requires 4 <= |a| && b == a[..0] + hash + a[4..]
    requires 8 <= |b| && c == b[..4] + crc + b[8..]
    requires end <= |c| && d == c[..8] + pool + c[end..]
    ensures end <= |d| && d[0..4] == hash && d[4..8] == crc && d[8..end] == pool
  {
    Written(a, 0, hash, 4);
    Written(b, 4, crc, 8);
    Written(c, 8, pool, end);
    KeptBefore(b, 4, crc, 8, 0, 4);
    KeptBefore(c, 8, pool, end, 0, 4);
    KeptBefore(c, 8, pool, end, 4, 8);
  }

  lemma Written(s: seq<bv8>, from: nat, data: seq<bv8>, to: nat)
    requires from <= |s| && to <= |s|
    ensures (s[..from] + data + s[to..])[from..from + |data|] == data
  {
  }

  lemma KeptBefore(s: seq<bv8>, from: nat, data: seq<bv8>, to: nat, i: nat, j: nat)
    requires i <= j <= from <= |s| && to <= |s|
    ensures (s[..from] + data + s[to..])[i..j] == s[i..j]
  {
  }

  /** What initialization makes of the storage's contents: a negative result is a read error. */
  ghost predicate Initialized(valid: Validity, params: seq<Param>, bytes: seq<bv8>, result: int, values: seq<Float>) {
    var n := OFFSET_VALUES + 4 * |params|;
    if result == RESTORED then
      exists stored: seq<Float> ::
        |stored| == |params| && Holds(bytes, LayoutHash(params), Crc32(0, PoolBytes(stored)), stored)
        && values == Repaired(valid, params, stored)
    else
      && values == Defaults(params) && (result < 0 || result == LAYOUT_MISMATCH || result == CRC_MISMATCH)
      && (result == LAYOUT_MISMATCH ==>
         4 <= |bytes| && bytes[OFFSET_LAYOUT_HASH..OFFSET_CRC] != WordBytes(LayoutHash(params)))
      && (result == CRC_MISMATCH ==>
            n <= |bytes| && bytes[OFFSET_LAYOUT_HASH..OFFSET_CRC] == WordBytes(LayoutHash(params))
            && bytes[OFFSET_CRC..OFFSET_VALUES] != WordBytes(Crc32(0, bytes[OFFSET_VALUES..n])))
  }

  lemma NothingToRepair(valid: Validity, params: seq<Param>, values: seq<Float>)
    requires AllValid(valid, params, values)
    ensures |values| == |params| && Repaired(valid, params, values) == values
  {
  }

  /** A pool saved and initialized again, with the same registrations and the same storage, has the same values, unless
      the storage cannot be read. */
  lemma SaveThenInit(valid: Validity, params: seq<Param>, saved: seq<Float>, bytes: seq<bv8>, result: int,
                     values: seq<Float>)
    requires AllValid(valid, params, saved)
    requires Holds(bytes, LayoutHash(params), Crc32(0, PoolBytes(saved)), saved)
    requires Initialized(valid, params, bytes, result, values)
    ensures result >= 0 ==> result == 1 && values == saved
  {
    hide Crc32, WordBytes, LayoutHash, PoolBytes, Repaired, AllValid, Defaults;
    SameLength(valid, params, saved);
    if result == RESTORED {
      var stored: seq<Float> :| |stored| == |params|
          && Holds(bytes, LayoutHash(params), Crc32(0, PoolBytes(stored)), stored)
                                && values == Repaired(valid, params, stored);
      PoolRoundTrip(stored);
      PoolRoundTrip(saved);
      NothingToRepair(valid, params, saved);
    }
  }

  // ---------------------------------------------------------------------------------------------
  // What initialization finds out

  /** The bytes from `from` to `to` have changed, and no others. */
  predicate Changed(before: seq<bv8>, after: seq<bv8>, from: nat, to: nat) {
    && from <= to <= |before| == |after| && before[..from] == after[..from] && before[to..] == after[to..]
    && before[from..to] != after[from..to]
  }

  /** A pool of which up to 4 bytes in a row have changed since it was saved is not restored: the result is 3, and the
      values are the defaults, unless the storage cannot be read. */
  lemma CorruptionFound(valid: Validity, params: seq<Param>, saved: seq<Float>, bytes: seq<bv8>, from: nat, to: nat,
                        bytes': seq<bv8>, result: int, values: seq<Float>)
    requires |saved| == |params| && Holds(bytes, LayoutHash(params), Crc32(0, PoolBytes(saved)), saved)
    requires Changed(bytes, bytes', from, to) && to - from <= 4
    requires 8 <= from && to <= 8 + 4 * |params|
    requires Initialized(valid, params, bytes', result, values)
    ensures (result < 0 || result == 3) && values == Defaults(params)
  {
    hide Crc32, WordBytes, LayoutHash, PoolBytes, Repaired, Defaults, WordOf, Initialized, Holds, Changed;
    var n := OFFSET_VALUES + 4 * |params|;
    Stored(params, bytes, saved);
    SameBefore(bytes, bytes', from, to, 0, 4);
    SameBefore(bytes, bytes', from, to, 4, 8);
    Outcome(valid, params, bytes', result, values);
    var a, b := bytes[OFFSET_VALUES..n], bytes'[OFFSET_VALUES..n];
    Surely(bytes, bytes', from, to, n);
    WordRoundTrip(Crc32(0, a));
    WordRoundTrip(Crc32(0, b));
  }

  /** The CRC of the pool has changed. */
  lemma Surely(bytes: seq<bv8>, bytes': seq<bv8>, from: nat, to: nat, n: nat)
    requires Changed(bytes, bytes', from, to) && to - from <= 4 && OFFSET_VALUES <= from && to <= n <= |bytes|
    ensures Crc32(0, bytes[OFFSET_VALUES..n]) != Crc32(0, bytes'[OFFSET_VALUES..n])
  {
    hide Crc32;
    Pieces(bytes, bytes', from, to, OFFSET_VALUES, n);
    if Crc32(0, bytes[OFFSET_VALUES..n]) == Crc32(0, bytes'[OFFSET_VALUES..n]) {
      PoolCrc.BurstDetected(0, bytes[OFFSET_VALUES..from], bytes[from..to], bytes'[from..to], bytes[to..n]);
    }
  }

  lemma Stored(params: seq<Param>, bytes: seq<bv8>, saved: seq<Float>)
    requires |saved| == |params| && Holds(bytes, LayoutHash(params), Crc32(0, PoolBytes(saved)), saved)
    ensures var n := OFFSET_VALUES + 4 * |params|;
            n <= |bytes| && bytes[0..4] == WordBytes(LayoutHash(params))
            && bytes[4..8] == WordBytes(Crc32(0, bytes[OFFSET_VALUES..n]))
  {
    hide Crc32, WordBytes, LayoutHash, PoolBytes;
  }

  lemma Outcome(valid: Validity, params: seq<Param>, bytes: seq<bv8>, result: int, values: seq<Float>)
    requires Initialized(valid, params, bytes, result, values)
    ensures var n := OFFSET_VALUES + 4 * |params|;
            && (result == 1 ==> n <= |bytes| && bytes[4..8] == WordBytes(Crc32(0, bytes[OFFSET_VALUES..n])))
            && (result == 2 ==> 4 <= |bytes| && bytes[0..4] != WordBytes(LayoutHash(params)))
            && (result == 1 || ((result < 0 || result == 2 || result == 3) && values == Defaults(params)))
  {
    hide Crc32, WordBytes, LayoutHash, PoolBytes, Repaired, Defaults;
    if result == RESTORED {
      var stored: seq<Float> :| |stored| == |params|
                                && Holds(bytes, LayoutHash(params), Crc32(0, PoolBytes(stored)), stored)
                                && values == Repaired(valid, params, stored);
      Stored(params, bytes, stored);
    }
  }

  lemma SameBefore(a: seq<bv8>, b: seq<bv8>, from: nat, to: nat, i: nat, j: nat)
    requires Changed(a, b, from, to) && i <= j <= from
    ensures j <= |a| == |b| && a[i..j] == b[i..j]
  {
    forall k | 0 <= k < from ensures a[k] == b[k] {
      assert a[..from][k] == b[..from][k];
    }
  }

  lemma Pieces(a: seq<bv8>, b: seq<bv8>, from: nat, to: nat, start: nat, end: nat)
    requires Changed(a, b, from, to) && start <= from && to <= end <= |a|
    ensures a[start..end] == a[start..from] + a[from..to] + a[to..end]
    ensures b[start..end] == a[start..from] + b[from..to] + a[to..end]
  {
    SameBefore(a, b, from, to, start, from);
    SameBehind(a, b, from, to, end);
    assert b[start..end] == b[start..from] + b[from..to] + b[to..end];
  }

  lemma SameBehind(a: seq<bv8>, b: seq<bv8>, from: nat, to: nat, end: nat)
    requires Changed(a, b, from, to) && to <= end <= |a|
    ensures a[to..end] == b[to..end]
  {
    forall k | to <= k < |a| ensures a[k] == b[k] {
      assert a[to..][k - to] == b[to..][k - to];
    }
  }

  /** Nor is one whose stored CRC has changed. */
  lemma CrcChanged(valid: Validity, params: seq<Param>, saved: seq<Float>, bytes: seq<bv8>, result: int,
                   values: seq<Float>, crc: bv32)
    requires |saved| == |params| && Holds(bytes, LayoutHash(params), crc, saved) && crc != Crc32(0, PoolBytes(saved))
    requires Initialized(valid, params, bytes, result, values)
    ensures (result < 0 || result == 3) && values == Defaults(params)
  {
    hide Crc32, WordBytes, LayoutHash, PoolBytes, Repaired, Defaults, Initialized;
    Outcome(valid, params, bytes, result, values);
    WordRoundTrip(crc);
    WordRoundTrip(Crc32(0, PoolBytes(saved)));
    assert bytes[OFFSET_VALUES..OFFSET_VALUES + 4 * |params|] == PoolBytes(saved);
  }

  /** A pool saved with another layout is not restored: the result is 2, and the values are the defaults. */
  lemma OtherLayout(valid: Validity, params: seq<Param>, hash: bv32, crc: bv32, saved: seq<Float>, bytes: seq<bv8>,
                    result: int, values: seq<Float>)
    requires Holds(bytes, hash, crc, saved) && hash != LayoutHash(params)
    requires Initialized(valid, params, bytes, result, values)
    ensures (result < 0 || result == 2) && values == Defaults(params)
  {
    hide Crc32, WordBytes, LayoutHash, PoolBytes, Repaired, Defaults;
    WordRoundTrip(hash);
    WordRoundTrip(LayoutHash(params));
  }

  /** The names of all parameters, one after the other. */
  function Names(params: seq<Param>): seq<bv8> {
    if params == [] then [] else Names(params[..|params| - 1]) + params[|params| - 1].name
  }

  lemma {:induction false} HashOfNames(params: seq<Param>)
    ensures LayoutHash(params) == Crc32(0, Names(params))
  {
    hide Crc32Step;
    if params != [] {
      HashOfNames(params[..|params| - 1]);
      CrcConcat(0, Names(params[..|params| - 1]), params[|params| - 1].name);
    }
  }

  /** Registrations whose names, put together, differ within 4 bytes in a row are told apart. */
  lemma LayoutsDiffer(p: seq<Param>, q: seq<Param>, before: seq<bv8>, a: seq<bv8>, b: seq<bv8>, after: seq<bv8>)
    requires Names(p) == before + a + after && Names(q) == before + b + after && |a| == |b| <= 4 && a != b
    ensures LayoutHash(p) != LayoutHash(q)
  {
    hide Crc32, LayoutHash, Names;
    HashOfNames(p);
    HashOfNames(q);
    if LayoutHash(p) == LayoutHash(q) {
      PoolCrc.BurstDetected(0, before, a, b, after);
    }
  }
}

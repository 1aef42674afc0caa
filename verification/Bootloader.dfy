/** The bootloader's update machine (bootloader.c): the flashing session, the signature loops and the
    boot data. The flash holds 216 firmware chunks, the 4 kB that follow them, and one record of boot data. */
module Bootloader {
  import opened Types

  const PAGE_LEN := 512
  const CHUNK_LEN := 4096
  const MAX_CHUNKS := 216
  const FLASH_CHUNKS := MAX_CHUNKS + 1
  const NUM_KEYS := 3
  const SIG_M := 2
  const SIG_LEN := 64

  type Bytes = seq<byte>

  const EmptySig: Bytes := Zeros(SIG_LEN)

  /** Verification of an ECDSA signature, the double hashes, and the built-in root keys. */
  datatype Oracle = Oracle(
    verify: (Bytes, Bytes, Bytes) -> bool,
    hashKeys: (u32, seq<Bytes>) -> Bytes,
    hashFirmware: (u32, seq<Bytes>) -> Bytes,
    rootKeys: seq<Bytes>)
  {
    predicate Valid() {
      |rootKeys| == NUM_KEYS
    }
  }

  datatype BootData = BootData(
    initialized: bool, keysVersion: u32, keys: seq<Bytes>, rootSigs: seq<Bytes>,
    firmwareVersion: u32, firmwareSigs: seq<Bytes>, showHash: byte)
  {
    predicate Valid() {
      |keys| == NUM_KEYS && |rootSigs| == NUM_KEYS && |firmwareSigs| == NUM_KEYS
    }
  }

  const NoSigs: seq<Bytes> := [EmptySig, EmptySig, EmptySig]

  /** What `_check_init` writes over boot data that is not marked as initialized. */
  const ZeroedBootData := BootData(true, 0, [Zeros(64), Zeros(64), Zeros(64)], NoSigs, 0, NoSigs, 0)

  datatype Status =
    | Ok | Err | ErrVersion | ErrLen | ErrWrite | ErrCheck | ErrErase | ErrLoadFlag | ErrInvalidCmd | ErrUnlock | ErrLock

  // Signatures

  /** Which of the first n slots carry a signature. */
  function Filled(sigs: seq<Bytes>, n: nat): set<nat>
    requires n <= |sigs|
  {
    set i: nat | i < n && sigs[i] != EmptySig
  }

  /** Every signature there verifies the hash and not the random digest, and there are at least two. */
  predicate Verified(
    verify: (Bytes, Bytes, Bytes) -> bool, keys: seq<Bytes>, sigs: seq<Bytes>, hash: Bytes, randoms: seq<Bytes>)
    requires |keys| == |sigs| == |randoms| == NUM_KEYS
  {
    && (forall i :: 0 <= i < NUM_KEYS && sigs[i] != EmptySig ==>
          !verify(keys[i], sigs[i], randoms[i]) && verify(keys[i], sigs[i], hash))
    && |Filled(sigs, NUM_KEYS)| >= SIG_M
  }

  lemma FilledNext(sigs: seq<Bytes>, n: nat)
    requires n < |sigs|
    ensures |Filled(sigs, n + 1)| == |Filled(sigs, n)| + if sigs[n] == EmptySig then 0 else 1
  {
    if sigs[n] == EmptySig {
      assert Filled(sigs, n + 1) == Filled(sigs, n);
    } else {
      assert Filled(sigs, n + 1) == Filled(sigs, n) + {n};
    }
  }

  /** The loop of `_pubkeys_verified` and of `_firmware_verified_jump`. */
  method CheckSignatures(
    verify: (Bytes, Bytes, Bytes) -> bool, keys: seq<Bytes>, sigs: seq<Bytes>, hash: Bytes, randoms: seq<Bytes>)
    returns (ok: bool)
    requires |keys| == |sigs| == |randoms| == NUM_KEYS
    ensures ok == Verified(verify, keys, sigs, hash, randoms)
  {
    var valid := 0;
    for i := 0 to NUM_KEYS
      invariant valid == |Filled(sigs, i)|
      invariant forall j :: 0 <= j < i && sigs[j] != EmptySig ==>
        !verify(keys[j], sigs[j], randoms[j]) && verify(keys[j], sigs[j], hash)
    {
      FilledNext(sigs, i);
      if sigs[i] != EmptySig {
        if verify(keys[i], sigs[i], randoms[i]) || !verify(keys[i], sigs[i], hash) {
          return false;
        }
        valid := valid + 1;
      }
    }
    return valid >= SIG_M;
  }

  datatype Randoms = Randoms(root: seq<Bytes>, again: seq<Bytes>, firmware: seq<Bytes>) {
    predicate Valid() {
      |root| == NUM_KEYS && |again| == NUM_KEYS && |firmware| == NUM_KEYS
    }
  }

  predicate KeysVerified(o: Oracle, b: BootData, randoms: seq<Bytes>)
    requires o.Valid() && b.Valid() && |randoms| == NUM_KEYS
  {
    Verified(o.verify, o.rootKeys, b.rootSigs, o.hashKeys(b.keysVersion, b.keys), randoms)
  }

  predicate FirmwareVerified(o: Oracle, b: BootData, app: seq<Bytes>, r: Randoms)
    requires o.Valid() && b.Valid() && r.Valid()
  {
    && KeysVerified(o, b, r.again)
    && Verified(o.verify, b.keys, b.firmwareSigs, o.hashFirmware(b.firmwareVersion, app), r.firmware)
  }

  // The state and what the flash does

  datatype State = State(loading: bool, num: nat, flash: seq<Bytes>, boot: BootData, inFirmware: bool) {
    function App(): seq<Bytes>
      requires Valid()
    {
      flash[..MAX_CHUNKS]
    }

    predicate Valid() {
      && num < MAX_CHUNKS
      && |flash| == FLASH_CHUNKS
      && (forall i :: 0 <= i < FLASH_CHUNKS ==> |flash[i]| == CHUNK_LEN)
      && boot.Valid()
    }
  }

  /** A write to the app flash: whether it reports success, and what the chunk then holds. */
  datatype ChunkWrite = ChunkWrite(ok: bool, result: Bytes) {
    predicate Valid() {
      |result| == CHUNK_LEN
    }
  }

  datatype Landed = Whole | Nothing | Torn(left: BootData)

  /** A write to the boot data area: what it reports, and how much of it reached the flash. */
  datatype BootWrite = BootWrite(unlockOk: bool, writeOk: bool, lockOk: bool, landed: Landed) {
    predicate Valid() {
      landed.Torn? ==> landed.left.Valid()
    }
  }

  /** An erase of two chunks, and what they then hold. */
  datatype Erasing = Erasing(ok: bool, first: Bytes, second: Bytes) {
    predicate Valid() {
      |first| == CHUNK_LEN && |second| == CHUNK_LEN
    }
  }

  // The flashing session

  function WriteChunk(s: State, chunk: byte, buf: Bytes, w: ChunkWrite): (State, Status)
    requires s.Valid()
  {
    if !s.loading then (s, ErrLoadFlag)
    else if chunk as int > s.num - 1 || chunk as int > MAX_CHUNKS - 1 then (s.(loading := false), ErrLen)
    else if s.flash[chunk] == buf then (s, Ok)
    else
      var written := s.(flash := s.flash[chunk as int := w.result]);
      if !w.ok then (written.(loading := false), ErrWrite)
      else if w.result != buf then (written.(loading := false), ErrCheck)
      else (written, Ok)
  }

  predicate FirstPageEmpty(chunk: Bytes) {
    |chunk| >= PAGE_LEN && forall i :: 0 <= i < PAGE_LEN ==> chunk[i] == 0xff
  }

  function Put(flash: seq<Bytes>, i: nat, e: Erasing): seq<Bytes>
    requires i + 1 < |flash|
  {
    flash[i := e.first][i + 1 := e.second]
  }

  /** The erase loop from chunk `i` on. Each round looks at the first page of two chunks and erases both,
      whether or not they are aligned; the last round of an odd count takes in what follows the app. */
  function EraseFrom(flash: seq<Bytes>, i: nat, erasings: nat -> Erasing): (seq<Bytes>, Status)
    requires |flash| == FLASH_CHUNKS
    decreases MAX_CHUNKS - i
  {
    if i >= MAX_CHUNKS then (flash, Ok)
    else if FirstPageEmpty(flash[i]) then EraseFrom(flash, i + 2, erasings)
    else
      var after := Put(flash, i, erasings(i));
      if !erasings(i).ok then (after, ErrErase)
      else if !FirstPageEmpty(after[i]) then (after, ErrCheck)
      else EraseFrom(after, i + 2, erasings)
  }

  function Erase(s: State, num: byte, unlockOk: bool, erasings: nat -> Erasing): (State, Status)
    requires s.Valid()
  {
    if num as int > MAX_CHUNKS - 1 then (s, ErrLen)
    else if !unlockOk then (s.(loading := false), ErrUnlock)
    else
      var (flash, status) := EraseFrom(s.flash, num, erasings);
      if status == Ok && num > 0 then (s.(flash := flash, num := num, loading := true), Ok)
      else (s.(flash := flash, loading := false), status)
  }

  // Boot data

  function Store(b: BootData, data: BootData, w: BootWrite): (BootData, Status) {
    if !w.unlockOk then (b, ErrUnlock)
    else
      var left := match w.landed case Whole => data case Nothing => b case Torn(left) => left;
      (left, if !w.writeOk then ErrWrite else if !w.lockOk then ErrLock else Ok)
  }

  datatype SigData = SigData(
    keysVersion: u32, keys: seq<Bytes>, rootSigs: seq<Bytes>, firmwareVersion: u32, firmwareSigs: seq<Bytes>)
  {
    predicate Valid() {
      |keys| == NUM_KEYS && |rootSigs| == NUM_KEYS && |firmwareSigs| == NUM_KEYS
    }

    function Over(b: BootData): BootData {
      b.(keysVersion := keysVersion, keys := keys, rootSigs := rootSigs,
         firmwareVersion := firmwareVersion, firmwareSigs := firmwareSigs)
    }
  }

  function CheckSigData(o: Oracle, b: BootData, app: seq<Bytes>, d: SigData, r: Randoms): Status
    requires o.Valid() && b.Valid() && d.Valid() && r.Valid()
  {
    if d.keysVersion < b.keysVersion then ErrVersion
    else if !KeysVerified(o, d.Over(b), r.root) then Err
    else if d.firmwareVersion < b.firmwareVersion then ErrVersion
    else if !FirmwareVerified(o, d.Over(b), app, r) then Err
    else Ok
  }

  function WriteSigData(o: Oracle, s: State, d: SigData, r: Randoms, w: BootWrite): (State, Status)
    requires o.Valid() && s.Valid() && d.Valid() && r.Valid()
  {
    var checked := CheckSigData(o, s.boot, s.App(), d, r);
    if checked != Ok then (s, checked)
    else
      var (boot, status) := Store(s.boot, d.Over(s.boot), w);
      (s.(boot := boot), status)
  }

  function SetShowHash(s: State, value: byte, w: BootWrite): (State, Status) {
    if value > 1 || s.boot.showHash == value then (s, Ok)
    else
      var (boot, status) := Store(s.boot, s.boot.(showHash := value), w);
      (s.(boot := boot), status)
  }

  /** A reset of the processor. The firmware starts if it verifies, unless the user asked for the
      bootloader. */
  function Boot(o: Oracle, s: State, autoEnter: bool, r: Randoms, w: BootWrite): State
    requires o.Valid() && s.Valid() && r.Valid()
  {
    var data := if s.boot.initialized then s.boot else ZeroedBootData;
    var stored := if s.boot.initialized then s.boot else Store(s.boot, data, w).0;
    s.(loading := false, num := 0, boot := stored, inFirmware := !autoEnter && FirmwareVerified(o, data, s.App(), r))
  }

  // Commands

  datatype Command =
    | EraseFirmware(num: byte, unlockOk: bool, erasings: nat -> Erasing)
    | Chunk(chunk: byte, buf: Bytes, write: ChunkWrite)
    | SignatureData(data: SigData, randoms: Randoms, store: BootWrite)
    | ShowHash(value: byte, store: BootWrite)
    | Rotate
    | Versions
    | Unknown
    | Reset(autoEnter: bool, randoms: Randoms, store: BootWrite)
  {
    ghost predicate Valid() {
      match this
      case EraseFirmware(_, _, erasings) => forall i :: erasings(i).Valid()
      case Chunk(_, buf, write) => |buf| == CHUNK_LEN && write.Valid()
      case SignatureData(data, randoms, store) => data.Valid() && randoms.Valid() && store.Valid()
      case ShowHash(_, store) => store.Valid()
      case Reset(_, randoms, store) => randoms.Valid() && store.Valid()
      case _ => true
    }
  }

  ghost function Exec(o: Oracle, s: State, c: Command): (State, Status)
    requires o.Valid() && s.Valid() && c.Valid()
  {
    if s.inFirmware && !c.Reset? then (s, ErrInvalidCmd)
    else
      match c
      case EraseFirmware(num, unlockOk, erasings) => Erase(s, num, unlockOk, erasings)
      case Chunk(chunk, buf, write) => WriteChunk(s, chunk, buf, write)
      case SignatureData(data, randoms, store) => WriteSigData(o, s, data, randoms, store)
      case ShowHash(value, store) => SetShowHash(s, value, store)
      case Rotate => (s, if s.loading then ErrLoadFlag else Ok)
      case Versions => (s, Ok)
      case Unknown => (s.(loading := false), ErrInvalidCmd)
      case Reset(autoEnter, randoms, store) => (Boot(o, s, autoEnter, randoms, store), Ok)
  }

  // The C code

  method CheckKeys(o: Oracle, b: BootData, randoms: seq<Bytes>) returns (ok: bool)
    requires o.Valid() && b.Valid() && |randoms| == NUM_KEYS
    ensures ok == KeysVerified(o, b, randoms)
  {
    ok := CheckSignatures(o.verify, o.rootKeys, b.rootSigs, o.hashKeys(b.keysVersion, b.keys), randoms);
  }

  method CheckFirmware(o: Oracle, b: BootData, app: seq<Bytes>, r: Randoms) returns (ok: bool)
    requires o.Valid() && b.Valid() && r.Valid()
    ensures ok == FirmwareVerified(o, b, app, r)
  {
    ok := CheckKeys(o, b, r.again);
    if ok {
      ok := CheckSignatures(o.verify, b.keys, b.firmwareSigs, o.hashFirmware(b.firmwareVersion, app), r.firmware);
    }
  }

  class Loader {
    var loading: bool
    var num: nat
    const flash: array<Bytes>
    var boot: BootData
    var inFirmware: bool

    ghost function View(): State
      reads this, flash
    {
      State(loading, num, flash[..], boot, inFirmware)
    }

    ghost predicate Valid()
      reads this, flash
    {
      View().Valid()
    }

    /** Power on over given flash contents, before `_check_init`. */
    constructor (flash: array<Bytes>, stored: BootData)
      requires flash.Length == FLASH_CHUNKS && stored.Valid()
      requires forall i :: 0 <= i < FLASH_CHUNKS ==> |flash[i]| == CHUNK_LEN
      ensures Valid() && this.flash == flash && View() == State(false, 0, flash[..], stored, false)
    {
      loading := false;
      num := 0;
      this.flash := flash;
      boot := stored;
      inFirmware := false;
    }

    method Write(chunk: byte, buf: Bytes, w: ChunkWrite) returns (status: Status)
      requires Valid() && |buf| == CHUNK_LEN && w.Valid()
      modifies this`loading, flash
      ensures Valid() && (View(), status) == WriteChunk(old(View()), chunk, buf, w)
    {
      if !loading {
        return ErrLoadFlag;
      }
      loading := false;
      if chunk as int > num - 1 || chunk as int > MAX_CHUNKS - 1 {
        return ErrLen;
      }
      if flash[chunk] == buf {
        loading := true;
        return Ok;
      }
      flash[chunk] := w.result;
      if !w.ok {
        return ErrWrite;
      }
      if flash[chunk] != buf {
        return ErrCheck;
      }
      loading := true;
      return Ok;
    }

    method EraseChunks(i: nat, e: Erasing)
      requires flash.Length == FLASH_CHUNKS && i < MAX_CHUNKS
      modifies flash
      ensures flash[..] == Put(old(flash[..]), i, e)
    {
      flash[i] := e.first;
      flash[i + 1] := e.second;
    }

    method EraseFirmware(n: byte, unlockOk: bool, erasings: nat -> Erasing) returns (status: Status)
      requires Valid() && forall i :: erasings(i).Valid()
      modifies this`loading, this`num, flash
      ensures (View(), status) == Erase(old(View()), n, unlockOk, erasings)
    {
      if n as int > MAX_CHUNKS - 1 {
        return ErrLen;
      }
      loading := false;
      if !unlockOk {
        return ErrUnlock;
      }
      var i := n as int;
      while i < MAX_CHUNKS
        invariant n as int <= i && flash.Length == FLASH_CHUNKS
        invariant EraseFrom(flash[..], i, erasings) == EraseFrom(old(flash[..]), n, erasings)
        modifies flash
      {
        if !FirstPageEmpty(flash[i]) {
          EraseChunks(i, erasings(i));
          if !erasings(i).ok {
            return ErrErase;
          }
          if !FirstPageEmpty(flash[i]) {
            return ErrCheck;
          }
        }
        i := i + 2;
      }
      if n > 0 {
        num := n;
        loading := true;
      }
      return Ok;
    }

    method WriteBootData(data: BootData, w: BootWrite) returns (status: Status)
      modifies this`boot
      ensures (boot, status) == Store(old(boot), data, w)
    {
      if !w.unlockOk {
        return ErrUnlock;
      }
      match w.landed {
        case Whole => boot := data;
        case Nothing =>
        case Torn(left) => boot := left;
      }
      if !w.writeOk {
        return ErrWrite;
      }
      return if w.lockOk then Ok else ErrLock;
    }

    method WriteSignatures(o: Oracle, d: SigData, r: Randoms, w: BootWrite) returns (status: Status)
      requires o.Valid() && Valid() && d.Valid() && r.Valid() && w.Valid()
      modifies this`boot
      ensures Valid() && (View(), status) == WriteSigData(o, old(View()), d, r, w)
    {
      var data := boot;
      if d.keysVersion < data.keysVersion {
        return ErrVersion;
      }
      data := data.(keysVersion := d.keysVersion, keys := d.keys, rootSigs := d.rootSigs);
      var ok := CheckKeys(o, data, r.root);
      if !ok {
        return Err;
      }
      if d.firmwareVersion < data.firmwareVersion {
        return ErrVersion;
      }
      data := data.(firmwareVersion := d.firmwareVersion, firmwareSigs := d.firmwareSigs);
      ok := CheckFirmware(o, data, flash[..MAX_CHUNKS], r);
      if !ok {
        return Err;
      }
      status := WriteBootData(data, w);
    }

    method ShowFirmwareHash(value: byte, w: BootWrite) returns (status: Status)
      requires Valid() && w.Valid()
      modifies this`boot
      ensures Valid() && (View(), status) == SetShowHash(old(View()), value, w)
    {
      status := Ok;
      if value <= 1 && boot.showHash != value {
        var data := boot.(showHash := value);
        status := WriteBootData(data, w);
      }
    }

    method Reset(o: Oracle, autoEnter: bool, r: Randoms, w: BootWrite)
      requires o.Valid() && Valid() && r.Valid() && w.Valid()
      modifies this
      ensures Valid() && View() == Boot(o, old(View()), autoEnter, r, w)
    {
      loading := false;
      num := 0;
      var data := boot;
      if !boot.initialized {
        data := ZeroedBootData;
        var ignored := WriteBootData(data, w);
      }
      var ok := CheckFirmware(o, data, flash[..MAX_CHUNKS], r);
      inFirmware := !autoEnter && ok;
    }
  }
}

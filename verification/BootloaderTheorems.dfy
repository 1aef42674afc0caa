/** What every run of bootloader commands and resets keeps. */
module BootloaderTheorems {
  import opened Types
  import opened Bootloader

  // The flashing session

  lemma {:induction false} EraseFromLeaves(flash: seq<Bytes>, i: nat, erasings: nat -> Erasing)
    requires |flash| == FLASH_CHUNKS
    ensures
      var (after, status) := EraseFrom(flash, i, erasings);
      && status in {Ok, ErrErase, ErrCheck}
      && |after| == FLASH_CHUNKS
      && (forall k :: 0 <= k < i && k < FLASH_CHUNKS ==> after[k] == flash[k])
      && (status == Ok ==> forall k :: i <= k < MAX_CHUNKS && (k - i) % 2 == 0 ==> FirstPageEmpty(after[k]))
    decreases MAX_CHUNKS - i
  {
    if i < MAX_CHUNKS {
      if FirstPageEmpty(flash[i]) {
        EraseFromLeaves(flash, i + 2, erasings);
      } else {
        var after := Put(flash, i, erasings(i));
        if erasings(i).ok && FirstPageEmpty(after[i]) {
          EraseFromLeaves(after, i + 2, erasings);
        }
      }
    }
  }

  lemma {:induction false} EraseFromKeepsLengths(flash: seq<Bytes>, i: nat, erasings: nat -> Erasing)
    requires |flash| == FLASH_CHUNKS && forall k :: 0 <= k < |flash| ==> |flash[k]| == CHUNK_LEN
    requires forall k :: erasings(k).Valid()
    ensures
      var after := EraseFrom(flash, i, erasings).0;
      |after| == |flash| && forall k :: 0 <= k < |flash| ==> |after[k]| == CHUNK_LEN
    decreases MAX_CHUNKS - i
  {
    if i < MAX_CHUNKS {
      if FirstPageEmpty(flash[i]) {
        EraseFromKeepsLengths(flash, i + 2, erasings);
      } else {
        var after := Put(flash, i, erasings(i));
        if erasings(i).ok && FirstPageEmpty(after[i]) {
          EraseFromKeepsLengths(after, i + 2, erasings);
        }
      }
    }
  }

  /** Only the last round of an odd count can reach what follows the app. */
  lemma {:induction false} EraseFromBeyond(flash: seq<Bytes>, i: nat, erasings: nat -> Erasing)
    requires |flash| == FLASH_CHUNKS && i <= FLASH_CHUNKS
    ensures
      var (after, status) := EraseFrom(flash, i, erasings);
      && |after| == FLASH_CHUNKS
      && (i % 2 == 0 ==> after[MAX_CHUNKS] == flash[MAX_CHUNKS])
      && (i % 2 == 1 && i < MAX_CHUNKS && status == Ok ==>
          after[MAX_CHUNKS] == if FirstPageEmpty(flash[MAX_CHUNKS - 1]) then flash[MAX_CHUNKS] else erasings(MAX_CHUNKS - 1).second)
    decreases MAX_CHUNKS - i
  {
    if i < MAX_CHUNKS {
      if FirstPageEmpty(flash[i]) {
        EraseFromBeyond(flash, i + 2, erasings);
      } else {
        var after := Put(flash, i, erasings(i));
        if erasings(i).ok && FirstPageEmpty(after[i]) {
          EraseFromBeyond(after, i + 2, erasings);
        }
      }
    }
  }

  /** An erase leaves the chunks of the new firmware alone. When it answers OK, every second chunk of the
      padding starts with an empty page, and the 4 kB that follow the app are as they were, unless the
      count is odd and the last chunk did not start with an empty page: then the erase took them in. */
  lemma EraseLeaves(s: State, num: byte, unlockOk: bool, erasings: nat -> Erasing)
    requires s.Valid()
    ensures
      var (t, status) := Erase(s, num, unlockOk, erasings);
      && |t.flash| == FLASH_CHUNKS
      && (forall k :: 0 <= k < num as int && k < MAX_CHUNKS ==> t.flash[k] == s.flash[k])
      && (status == Ok ==> forall k :: num as int <= k < MAX_CHUNKS && (k - num) % 2 == 0 ==> FirstPageEmpty(t.flash[k]))
      && (status == Ok ==>
          t.flash[MAX_CHUNKS] ==
            if num % 2 == 0 || FirstPageEmpty(s.flash[MAX_CHUNKS - 1]) then s.flash[MAX_CHUNKS]
            else erasings(MAX_CHUNKS - 1).second)
  {
    if num as int < MAX_CHUNKS {
      EraseFromLeaves(s.flash, num, erasings);
      EraseFromBeyond(s.flash, num, erasings);
    }
  }

  lemma ExecKeepsValid(o: Oracle, s: State, c: Command)
    requires o.Valid() && s.Valid() && c.Valid()
    ensures Exec(o, s, c).0.Valid()
  {
    if c.EraseFirmware? {
      EraseFromKeepsLengths(s.flash, c.num, c.erasings);
    }
  }

  /** A write touches no chunk but its own, and leaves the session open exactly if it answers OK. */
  lemma WriteTouchesOne(s: State, chunk: byte, buf: Bytes, w: ChunkWrite)
    requires s.Valid()
    ensures
      var (t, status) := WriteChunk(s, chunk, buf, w);
      && |t.flash| == FLASH_CHUNKS
      && (forall k :: 0 <= k < FLASH_CHUNKS && k != chunk as int ==> t.flash[k] == s.flash[k])
      && (t.loading <==> status == Ok)
      && (status == Ok ==> s.loading && chunk as int < MAX_CHUNKS && t.flash[chunk] == buf)
      && (status !in {Ok, ErrWrite, ErrCheck} ==> t.flash == s.flash)
  {
  }

  /** What the host may rely on: per chunk, the last buffer whose write was acknowledged. A write that
      fails on the flash takes back what was said about its chunk, an erase about the chunks it makes
      padding. */
  function Noted(c: Command, status: Status, acked: map<int, Bytes>): map<int, Bytes> {
    match c
    case EraseFirmware(num, _, _) =>
      if status in {ErrLen, ErrInvalidCmd} then acked else map k | k in acked && k < num as int :: acked[k]
    case Chunk(chunk, buf, _) =>
      if status == Ok then acked[chunk := buf]
      else if status in {ErrWrite, ErrCheck} then acked - {chunk}
      else acked
    case _ => acked
  }

  predicate Holds(s: State, acked: map<int, Bytes>) {
    forall k :: k in acked ==> 0 <= k < |s.flash| && s.flash[k] == acked[k]
  }

  ghost predicate AllValid(commands: seq<Command>) {
    forall i :: 0 <= i < |commands| ==> commands[i].Valid()
  }

  ghost function Run(o: Oracle, s: State, commands: seq<Command>): (t: State)
    requires o.Valid() && s.Valid() && AllValid(commands)
    ensures t.Valid()
    decreases |commands|
  {
    if commands == [] then s
    else
      ExecKeepsValid(o, s, commands[0]);
      Run(o, Exec(o, s, commands[0]).0, commands[1..])
  }

  ghost function AckedBy(o: Oracle, s: State, commands: seq<Command>, acked: map<int, Bytes>): map<int, Bytes>
    requires o.Valid() && s.Valid() && AllValid(commands)
    decreases |commands|
  {
    if commands == [] then acked
    else
      ExecKeepsValid(o, s, commands[0]);
      var (t, status) := Exec(o, s, commands[0]);
      AckedBy(o, t, commands[1..], Noted(commands[0], status, acked))
  }

  lemma StepHolds(o: Oracle, s: State, c: Command, acked: map<int, Bytes>)
    requires o.Valid() && s.Valid() && c.Valid() && Holds(s, acked)
    ensures Holds(Exec(o, s, c).0, Noted(c, Exec(o, s, c).1, acked))
  {
    if c.Chunk? {
      WriteTouchesOne(s, c.chunk, c.buf, c.write);
    } else if c.EraseFirmware? {
      EraseFromLeaves(s.flash, c.num, c.erasings);
    }
  }

  /** Whatever order and repetition of commands, resets and flash failures: every acknowledged chunk
      holds the buffer last acknowledged for it. */
  lemma {:induction false} RunHolds(o: Oracle, s: State, commands: seq<Command>, acked: map<int, Bytes>)
    requires o.Valid() && s.Valid() && AllValid(commands) && Holds(s, acked)
    ensures Holds(Run(o, s, commands), AckedBy(o, s, commands, acked))
    decreases |commands|
  {
    if commands != [] {
      ExecKeepsValid(o, s, commands[0]);
      StepHolds(o, s, commands[0], acked);
      var (t, status) := Exec(o, s, commands[0]);
      RunHolds(o, t, commands[1..], Noted(commands[0], status, acked));
    }
  }

  /** No command opens a session but an erase that asks for at least one chunk. */
  predicate Opens(c: Command, status: Status) {
    c.EraseFirmware? && status == Ok && c.num > 0
  }

  lemma OnlyEraseOpens(o: Oracle, s: State, c: Command)
    requires o.Valid() && s.Valid() && c.Valid()
    ensures !s.loading && Exec(o, s, c).0.loading ==> Opens(c, Exec(o, s, c).1)
    ensures Opens(c, Exec(o, s, c).1) ==> Exec(o, s, c).0.loading
    ensures c.Chunk? && !s.inFirmware && !s.loading ==> Exec(o, s, c) == (s, ErrLoadFlag)
  {
  }

  ghost predicate NeverOpened(o: Oracle, s: State, commands: seq<Command>)
    requires o.Valid() && s.Valid() && AllValid(commands)
    decreases |commands|
  {
    commands != [] ==>
      (ExecKeepsValid(o, s, commands[0]);
      var (t, status) := Exec(o, s, commands[0]);
      !Opens(commands[0], status) && NeverOpened(o, t, commands[1..]))
  }

  /** After a write that did not answer OK, every later write is refused and changes nothing, until an
      erase opens a new session. */
  lemma {:induction false} RefusedUntilErase(o: Oracle, s: State, commands: seq<Command>, next: Command)
    requires o.Valid() && s.Valid() && AllValid(commands) && !s.loading && NeverOpened(o, s, commands)
    requires next.Chunk? && next.Valid()
    ensures
      var t := Run(o, s, commands);
      !t.loading && (!t.inFirmware ==> Exec(o, t, next) == (t, ErrLoadFlag))
    decreases |commands|
  {
    if commands != [] {
      ExecKeepsValid(o, s, commands[0]);
      OnlyEraseOpens(o, s, commands[0]);
      RefusedUntilErase(o, Exec(o, s, commands[0]).0, commands[1..], next);
    }
  }

  // Versions and signing keys

  /** The signing keys carry at least two root signatures, and every one of them verifies. */
  predicate KeysSigned(o: Oracle, b: BootData)
    requires o.Valid() && b.Valid()
  {
    && (forall i :: 0 <= i < NUM_KEYS && b.rootSigs[i] != EmptySig ==>
          o.verify(o.rootKeys[i], b.rootSigs[i], o.hashKeys(b.keysVersion, b.keys)))
    && |Filled(b.rootSigs, NUM_KEYS)| >= SIG_M
  }

  predicate FirmwareSigned(o: Oracle, b: BootData, app: seq<Bytes>)
    requires o.Valid() && b.Valid()
  {
    && KeysSigned(o, b)
    && (forall i :: 0 <= i < NUM_KEYS && b.firmwareSigs[i] != EmptySig ==>
          o.verify(b.keys[i], b.firmwareSigs[i], o.hashFirmware(b.firmwareVersion, app)))
    && |Filled(b.firmwareSigs, NUM_KEYS)| >= SIG_M
  }

  predicate KeysUnset(b: BootData) {
    b.keysVersion == 0 && b.keys == ZeroedBootData.keys && b.rootSigs == NoSigs
  }

  predicate Trusted(o: Oracle, s: State)
    requires o.Valid() && s.Valid()
  {
    && s.boot.initialized
    && (KeysUnset(s.boot) || KeysSigned(o, s.boot))
    && (s.inFirmware ==> FirmwareSigned(o, s.boot, s.App()))
  }

  /** Whatever the command stores reaches the flash whole or not at all. */
  predicate Intact(c: Command) {
    (c.SignatureData? || c.ShowHash? || c.Reset?) ==> !c.store.landed.Torn?
  }

  predicate NotBelow(b: BootData, than: BootData) {
    b.keysVersion >= than.keysVersion && b.firmwareVersion >= than.firmwareVersion
  }

  lemma StepKeepsTrust(o: Oracle, s: State, c: Command)
    requires o.Valid() && s.Valid() && c.Valid() && Trusted(o, s) && Intact(c)
    ensures
      var t := Exec(o, s, c).0;
      t.Valid() && Trusted(o, t) && NotBelow(t.boot, s.boot)
  {
    ExecKeepsValid(o, s, c);
  }

  ghost predicate AllIntact(commands: seq<Command>) {
    forall i :: 0 <= i < |commands| ==> Intact(commands[i])
  }

  /** Over every run of commands and resets in which no write of boot data is torn: neither version
      ever decreases, the signing keys are unset or signed by the root keys, and firmware that was
      started is signed by the signing keys. */
  lemma {:induction false} RunKeepsTrust(o: Oracle, s: State, commands: seq<Command>)
    requires o.Valid() && s.Valid() && AllValid(commands) && AllIntact(commands) && Trusted(o, s)
    ensures
      var t := Run(o, s, commands);
      Trusted(o, t) && NotBelow(t.boot, s.boot)
    decreases |commands|
  {
    if commands != [] {
      ExecKeepsValid(o, s, commands[0]);
      StepKeepsTrust(o, s, commands[0]);
      RunKeepsTrust(o, Exec(o, s, commands[0]).0, commands[1..]);
    }
  }

  /** The first boot of a blank device establishes it. */
  lemma FirstBoot(o: Oracle, s: State, autoEnter: bool, r: Randoms, w: BootWrite)
    requires o.Valid() && s.Valid() && r.Valid() && w.Valid()
    requires !s.boot.initialized && w.unlockOk && w.landed == Whole
    ensures Trusted(o, Boot(o, s, autoEnter, r, w)) && !Boot(o, s, autoEnter, r, w).inFirmware
  {
    assert Filled(NoSigs, NUM_KEYS) == {};
  }

  /** A reset keeps the stored versions exactly if the boot data is marked as initialized or there is
      no version to lose. */
  lemma ResetKeepsVersions(o: Oracle, s: State, autoEnter: bool, r: Randoms, w: BootWrite)
    requires o.Valid() && s.Valid() && r.Valid() && w.Valid() && w.unlockOk && w.landed == Whole
    ensures NotBelow(Boot(o, s, autoEnter, r, w).boot, s.boot) <==>
      s.boot.initialized || (s.boot.keysVersion == 0 && s.boot.firmwareVersion == 0)
  {
  }

  /** What a reset in the middle of a write can leave: the page is erased and not yet programmed. */
  const ErasedBootData := BootData(
    false, 0xFFFF_FFFF, [Erased(64), Erased(64), Erased(64)], [Erased(64), Erased(64), Erased(64)],
    0xFFFF_FFFF, [Erased(64), Erased(64), Erased(64)], 0xff)

  /** So one reset during a write is enough: the page comes up erased, without the mark, and the boot
      code sets both versions to zero. */
  lemma TornWriteLosesVersions(o: Oracle, s: State, torn: BootWrite, r: Randoms, w: BootWrite)
    requires o.Valid() && s.Valid() && r.Valid() && s.boot.initialized && !s.inFirmware && s.boot.firmwareVersion > 0
    requires s.boot.showHash == 0
    requires torn == BootWrite(true, true, true, Torn(ErasedBootData))
    requires w == BootWrite(true, true, true, Whole)
    ensures
      var commands := [ShowHash(1, torn), Reset(true, r, w)];
      AllValid(commands) && Run(o, s, commands).boot.firmwareVersion == 0 < s.boot.firmwareVersion
  {
    var commands := [ShowHash(1, torn), Reset(true, r, w)];
    assert commands[0].Valid() && commands[1].Valid();
    var t := Exec(o, s, commands[0]).0;
    ExecKeepsValid(o, s, commands[0]);
    var rest := commands[1..];
    assert rest == [Reset(true, r, w)] && rest[1..] == [];
    ExecKeepsValid(o, t, rest[0]);
    var u := Exec(o, t, rest[0]).0;
    assert Run(o, t, rest) == Run(o, u, rest[1..]) == u;
  }
}

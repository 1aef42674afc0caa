/** Seed storage and unlocking (keystore.c, memory.c, bitbox02_smarteeprom.c, reset.c) as a machine
    that runs one statement at a time, because the power can be cut between any two of them. */
module Keystore {
  import opened Types

  const MAX_UNLOCK_ATTEMPTS := 10
  const SEED_FIELD_LEN := 96
  const RESET_TRIES := 5

  type Bytes = seq<byte>

  /** The cryptography: the authenticated cipher, and the two ways to stretch a secret with the secure
      chip (its current keys are a number) and the salt. */
  datatype Crypto = Crypto(
    enc: (Bytes, Bytes, Bytes) -> Bytes,
    dec: (Bytes, Bytes) -> Option<Bytes>,
    stretchPassword: (nat, Bytes, Bytes) -> Bytes,
    stretchKey: (nat, Bytes, Bytes) -> Bytes)
  {
    /** What encrypts with a key decrypts with it, to a ciphertext longer by the IV, the padding and the tag. */
    ghost predicate Opens() {
      forall k: Bytes, iv: Bytes, m: Bytes | |k| == 32 && |iv| == 16 && |m| <= 175 ::
        dec(k, enc(k, iv, m)) == Some(m) && |enc(k, iv, m)| == 16 * (|m| / 16) + 64
    }

    /** No other key opens it. */
    ghost predicate Authentic() {
      forall k: Bytes, l: Bytes, iv: Bytes, m: Bytes | |k| == 32 && |l| == 32 && k != l && |iv| == 16 && |m| <= 175 ::
        dec(l, enc(k, iv, m)) == None
    }

    ghost predicate Ideal() {
      && Opens()
      && Authentic()
      && (forall chip, salt, x :: |stretchPassword(chip, salt, x)| == 32)
      && (forall chip, salt, x :: |stretchKey(chip, salt, x)| == 32)
    }
  }

  predicate ValidSeedLength(n: nat) {
    n == 16 || n == 24 || n == 32
  }

  /** The stored ciphertext, with a record of how it was made. */
  datatype Blob = NoBlob | Blob(bytes: Bytes, seed: Bytes, password: Bytes, chip: nat, salt: Bytes, iv: Bytes)

  datatype SaltRoot = NoSalt | SaltRoot(bytes: Bytes)

  /** The fields of flash chunk 1. */
  datatype Flash = Flash(seeded: bool, initialized: bool, blob: Blob, salt: SaltRoot)

  const ErasedFlash := Flash(false, false, NoBlob, NoSalt)

  /** The retained seed: the random key in RAM and the ciphertext made with it. */
  datatype Retained = Retained(key: Bytes, bytes: Bytes, iv: Bytes)

  const NothingRetained := Retained([], [], [])

  datatype Error =
    | Fine | Unseeded | Memory | SecureChip | Salt | Hash | Decrypt | SeedSize | IncorrectPassword

  /** The answer to the last call; an aborted call or one cut short gives none. */
  datatype Reply = Unanswered | Reply(error: Error, remaining: Option<nat>)

  datatype Reason =
    | AttemptsAboveMax | IncrementPastMax | EepromWrite | SeedUnderflow | SeedTooLong | SeedChanged
    | ChipReset | CounterReset | MemoryReset

  /** The statement about to run, with the local variables that are still needed. */
  datatype Pc =
    | Ready
    | Halted(reason: Reason)
    // keystore_unlock
    | CheckAttempts(password: Bytes)
    | Increment(password: Bytes)
    | Evaluate(password: Bytes)
    | Decide(seed: Bytes)
    | Retain(seed: Bytes)
    | MarkUnlocked
    | ClearAttempts
    | Report(error: Error)
    // reset_reset
    | ResetLock
    | ResetChip(tries: nat)
    | ResetCounter(tries: nat)
    | EraseFlash
    | InitFlash
    | DisableEeprom
    | Reboot
    // keystore_encrypt_and_store_seed
    | StoreLock(seed: Bytes, password: Bytes)
    | StoreKeys(seed: Bytes, password: Bytes)
    | StoreEncrypt(seed: Bytes, password: Bytes)
    | StoreWrite(blob: Blob)
    | StoreVerify(seed: Bytes, password: Bytes)
    | UndoErase
    | UndoInit

  datatype State = State(
    attempts: nat,
    eepromEnabled: bool,
    flash: Flash,
    chip: nat,
    unlocked: bool,
    bip39: bool,
    retained: Retained,
    pc: Pc,
    reply: Reply,
    evaluations: nat)  // password evaluations since the last successful unlock or reset

  /** Whether the hardware obliges during one statement, and the values it draws. A failed update of
      the chip's keys may have changed them all the same. */
  datatype Env = Env(
    chipOk: bool, hashOk: bool, flashOk: bool, eepromOk: bool, mnemonicOk: bool,
    newChip: nat, random: Bytes, iv: Bytes, newSalt: Bytes)

  predicate Proper(env: Env) {
    |env.iv| == 16
  }

  function Halt(s: State, reason: Reason): State {
    s.(pc := Halted(reason))
  }

  function Return(s: State, error: Error): State {
    s.(pc := Ready, reply := Reply(error, None))
  }

  function Lock(s: State): State {
    s.(unlocked := false, bip39 := false, retained := NothingRetained)
  }

  /** `bitbox02_smarteeprom_get_unlock_attempts` aborts on a value that cannot be. */
  predicate AttemptsReadable(s: State) {
    s.attempts <= MAX_UNLOCK_ATTEMPTS
  }

  datatype Secret = Stretched(key: Bytes) | Failed(error: Error)

  function StretchPassword(c: Crypto, s: State, env: Env, password: Bytes): Secret {
    if s.flash.salt.NoSalt? then Failed(Salt)
    else if !env.chipOk then Failed(SecureChip)
    else if !env.hashOk then Failed(Hash)
    else Stretched(c.stretchPassword(s.chip, s.flash.salt.bytes, password))
  }

  function StretchKey(c: Crypto, s: State, env: Env, key: Bytes): Secret {
    if s.flash.salt.NoSalt? then Failed(Salt)
    else if !env.chipOk then Failed(SecureChip)
    else if !env.hashOk then Failed(Hash)
    else Stretched(c.stretchKey(s.chip, s.flash.salt.bytes, key))
  }

  function CopySeed(c: Crypto, s: State, env: Env): Option<Bytes> {
    if !s.unlocked then None
    else
      match StretchKey(c, s, env, s.retained.key)
      case Failed(_) => None
      case Stretched(k) => c.dec(k, s.retained.bytes)
  }

  datatype Decrypted = Seed(seed: Bytes) | Refused(error: Error) | Dies(reason: Reason)

  function GetAndDecryptSeed(c: Crypto, s: State, env: Env, password: Bytes): Decrypted {
    if !s.flash.seeded || s.flash.blob.NoBlob? then Refused(Memory)
    else
      match StretchPassword(c, s, env, password)
      case Failed(error) => Refused(error)
      case Stretched(k) =>
        if |s.flash.blob.bytes| < 49 then Dies(SeedUnderflow)
        else
          match c.dec(k, s.flash.blob.bytes)
          case None => Refused(IncorrectPassword)
          case Some(seed) => if ValidSeedLength(|seed|) then Seed(seed) else Refused(SeedSize)
  }

  // keystore_unlock, statement by statement

  function CheckAttemptsStep(s: State, password: Bytes): State {
    if !AttemptsReadable(s) then Halt(s, AttemptsAboveMax)
    else if s.attempts >= MAX_UNLOCK_ATTEMPTS then s.(pc := ResetLock)
    else s.(pc := Increment(password))
  }

  function IncrementStep(s: State, env: Env, password: Bytes): State {
    if !AttemptsReadable(s) then Halt(s, AttemptsAboveMax)
    else if s.attempts == MAX_UNLOCK_ATTEMPTS then Halt(s, IncrementPastMax)
    else if !env.eepromOk then Halt(s, EepromWrite)
    else s.(attempts := s.attempts + 1, pc := Evaluate(password))
  }

  function EvaluateStep(s: State, d: Decrypted): State {
    var t := s.(evaluations := s.evaluations + 1);
    match d
    case Seed(seed) => t.(pc := Decide(seed))
    case Refused(IncorrectPassword) => t.(pc := Report(IncorrectPassword))
    case Refused(error) => Return(t, error)
    case Dies(reason) => Halt(t, reason)
  }

  function DecideStep(s: State, copied: Option<Bytes>, seed: Bytes): State {
    if !s.unlocked then s.(pc := Retain(seed))
    else
      match copied
      case None => Return(s, Decrypt)
      case Some(current) => if current != seed then Halt(s, SeedChanged) else s.(pc := ClearAttempts)
  }

  function RetainStep(c: Crypto, s: State, env: Env, seed: Bytes): State {
    match StretchKey(c, s, env, env.random)
    case Failed(error) => Return(s.(retained := s.retained.(key := env.random)), error)
    case Stretched(k) => s.(retained := Retained(env.random, c.enc(k, env.iv, seed), env.iv), pc := MarkUnlocked)
  }

  function ClearAttemptsStep(s: State, env: Env): State {
    if !AttemptsReadable(s) then Halt(s, AttemptsAboveMax)
    else if !env.eepromOk then Halt(s, EepromWrite)
    else s.(attempts := 0, evaluations := 0, pc := Report(Fine))
  }

  function ReportStep(s: State, error: Error): State {
    if !AttemptsReadable(s) then Halt(s, AttemptsAboveMax)
    else if s.attempts >= MAX_UNLOCK_ATTEMPTS then s.(pc := ResetLock)
    else s.(pc := Ready, reply := Reply(error, Some(MAX_UNLOCK_ATTEMPTS - s.attempts)))
  }

  // reset_reset, statement by statement

  /** After a reset the SmartEEPROM is off, and the next boot starts it empty. */
  function Boot(s: State): State {
    Lock(s).(pc := Ready,
      attempts := if s.eepromEnabled then s.attempts else 0,
      eepromEnabled := true)
  }

  function ResetChipStep(s: State, env: Env, tries: nat): State {
    var t := s.(chip := env.newChip);
    if env.chipOk then t.(pc := ResetCounter(RESET_TRIES))
    else if tries <= 1 then Halt(t, ChipReset)
    else t.(pc := ResetChip(tries - 1))
  }

  function ResetCounterStep(s: State, env: Env, tries: nat): State {
    if env.chipOk then s.(pc := EraseFlash)
    else if tries <= 1 then Halt(s, CounterReset)
    else s.(pc := ResetCounter(tries - 1))
  }

  function EraseFlashStep(s: State, env: Env): State {
    if env.flashOk then s.(flash := ErasedFlash, evaluations := 0, pc := InitFlash) else Halt(s, MemoryReset)
  }

  function InitFlashStep(s: State, env: Env): State {
    if env.flashOk then s.(flash := s.flash.(salt := SaltRoot(env.newSalt)), pc := DisableEeprom)
    else Halt(s, MemoryReset)
  }

  // keystore_encrypt_and_store_seed, statement by statement

  function StoreLockStep(s: State, seed: Bytes, password: Bytes): State {
    if ValidSeedLength(|seed|) then Lock(s).(pc := StoreKeys(seed, password)) else Return(Lock(s), SeedSize)
  }

  function StoreKeysStep(s: State, env: Env, seed: Bytes, password: Bytes): State {
    var t := s.(chip := env.newChip);
    if env.chipOk then t.(pc := StoreEncrypt(seed, password)) else Return(t, SecureChip)
  }

  function StoreEncryptStep(c: Crypto, s: State, env: Env, seed: Bytes, password: Bytes): State {
    match StretchPassword(c, s, env, password)
    case Failed(error) => Return(s, error)
    case Stretched(k) =>
      var bytes := c.enc(k, env.iv, seed);
      if |bytes| > 255 then Halt(s, SeedTooLong)
      else s.(pc := StoreWrite(Blob(bytes, seed, password, s.chip, s.flash.salt.bytes, env.iv)))
  }

  function StoreWriteStep(s: State, env: Env, blob: Blob): State {
    if env.flashOk && blob.Blob? then
      s.(flash := s.flash.(seeded := true, blob := blob), pc := StoreVerify(blob.seed, blob.password))
    else Return(s, Memory)
  }

  function StoreVerifyStep(s: State, d: Decrypted, seed: Bytes): State {
    if d == Seed(seed) then Return(s, Fine) else s.(pc := UndoErase)
  }

  function UndoEraseStep(s: State, env: Env): State {
    if env.flashOk then s.(flash := ErasedFlash, evaluations := 0, pc := UndoInit) else Return(s, Memory)
  }

  function UndoInitStep(s: State, env: Env): State {
    Return(if env.flashOk then s.(flash := s.flash.(salt := SaltRoot(env.newSalt))) else s, Memory)
  }

  function UnlockStep(c: Crypto, s: State, env: Env): State {
    match s.pc
    case CheckAttempts(password) => CheckAttemptsStep(s, password)
    case Increment(password) => IncrementStep(s, env, password)
    case Evaluate(password) => EvaluateStep(s, GetAndDecryptSeed(c, s, env, password))
    case Report(error) => ReportStep(s, error)
    case _ => s
  }

  /** The rest of keystore_unlock, once the password has opened the stored seed. */
  function AdmitStep(c: Crypto, s: State, env: Env): State {
    match s.pc
    case Decide(seed) => DecideStep(s, CopySeed(c, s, env), seed)
    case Retain(seed) => RetainStep(c, s, env, seed)
    case MarkUnlocked => s.(unlocked := true, pc := ClearAttempts)
    case ClearAttempts => ClearAttemptsStep(s, env)
    case _ => s
  }

  function ResetStep(s: State, env: Env): State {
    match s.pc
    case ResetLock => Lock(s).(pc := ResetChip(RESET_TRIES))
    case ResetChip(tries) => ResetChipStep(s, env, tries)
    case ResetCounter(tries) => ResetCounterStep(s, env, tries)
    case EraseFlash => EraseFlashStep(s, env)
    case InitFlash => InitFlashStep(s, env)
    case DisableEeprom => s.(eepromEnabled := false, pc := Reboot)
    case Reboot => Boot(s)
    case _ => s
  }

  function StoreStep(c: Crypto, s: State, env: Env): State {
    match s.pc
    case StoreLock(seed, password) => StoreLockStep(s, seed, password)
    case StoreKeys(seed, password) => StoreKeysStep(s, env, seed, password)
    case StoreEncrypt(seed, password) => StoreEncryptStep(c, s, env, seed, password)
    case StoreWrite(blob) => StoreWriteStep(s, env, blob)
    case StoreVerify(seed, password) => StoreVerifyStep(s, GetAndDecryptSeed(c, s, env, password), seed)
    case UndoErase => UndoEraseStep(s, env)
    case UndoInit => UndoInitStep(s, env)
    case _ => s
  }

  predicate Admitting(pc: Pc) {
    pc.Decide? || pc.Retain? || pc.MarkUnlocked? || pc.ClearAttempts?
  }

  predicate Resetting(pc: Pc) {
    || pc.ResetLock? || pc.ResetChip? || pc.ResetCounter? || pc.EraseFlash? || pc.InitFlash? || pc.DisableEeprom?
    || pc.Reboot?
  }

  predicate Storing(pc: Pc) {
    || pc.StoreLock? || pc.StoreKeys? || pc.StoreEncrypt? || pc.StoreWrite? || pc.StoreVerify? || pc.UndoErase?
    || pc.UndoInit?
  }

  /** Run the next statement of the call in progress, if there is one. */
  function Continue(c: Crypto, s: State, env: Env): State {
    if Resetting(s.pc) then ResetStep(s, env)
    else if Storing(s.pc) then StoreStep(c, s, env)
    else if Admitting(s.pc) then AdmitStep(c, s, env)
    else UnlockStep(c, s, env)
  }

  datatype Call =
    | Unlock(password: Bytes)
    | Store(seed: Bytes, password: Bytes)
    | Reset
    | SetInitialized(ok: bool)
    | UnlockBip39(env: Env)
    | LockNow

  /** A call from the idle state; the ones without persistent effects run to the end. */
  function Start(c: Crypto, s: State, call: Call): State {
    match call
    case Unlock(password) =>
      if s.flash.seeded then s.(pc := CheckAttempts(password), reply := Unanswered) else Return(s, Unseeded)
    case Store(seed, password) =>
      if s.flash.initialized then Return(s, Memory) else s.(pc := StoreLock(seed, password), reply := Unanswered)
    case Reset => s.(pc := ResetLock, reply := Unanswered)
    case SetInitialized(ok) => if s.flash.seeded && ok then s.(flash := s.flash.(initialized := true)) else s
    case UnlockBip39(env) =>
      if s.unlocked && CopySeed(c, s, env).Some? && env.mnemonicOk then s.(bip39 := true) else s
    case LockNow => Lock(s)
  }

  datatype Event = Begin(call: Call) | Next(env: Env) | PowerCut

  function Step(c: Crypto, s: State, e: Event): State {
    match e
    case Begin(call) => if s.pc == Ready then Start(c, s, call) else s
    case Next(env) => if Proper(env) then Continue(c, s, env) else s
    case PowerCut => Boot(s)
  }

  function Run(c: Crypto, s: State, events: seq<Event>): State
    decreases |events|
  {
    if events == [] then s else Run(c, Step(c, s, events[0]), events[1..])
  }

  /** Run a call to its end, with what the hardware does at each statement. */
  function Proceed(c: Crypto, s: State, envs: seq<Env>, i: nat): State
    decreases |envs| - i
  {
    if i >= |envs| then s else Proceed(c, Step(c, s, Next(envs[i])), envs, i + 1)
  }
}

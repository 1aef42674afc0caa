/** The globals behind keystore.c and reset.c with the functions that update them in place. Each method
    is proved to do, statement by statement, what the machine does when the power is not cut. */
module KeystoreDevice {
  import opened Types
  import opened Keystore
  import Theorems = KeystoreTheorems

  const RESET_STATEMENTS := 15

  ghost predicate AllProper(envs: seq<Env>) {
    forall e :: e in envs ==> Proper(e)
  }

  /** `next` runs one statement. The methods know it only through the Follow lemmas, which keeps each
      proof to the few statements it is about. */
  ghost predicate Runs(c: Crypto, next: (State, Env) -> State) {
    forall s: State, e: Env {:trigger Continue(c, s, e)} :: next(s, e) == Continue(c, s, e)
  }

  ghost function Finish(next: (State, Env) -> State, s: State, envs: seq<Env>, i: nat): State
    decreases |envs| - i
  {
    if i >= |envs| then s else Finish(next, next(s, envs[i]), envs, i + 1)
  }

  /** To finish a call is a run of the machine without power cuts. */
  lemma {:induction false} FinishIsRun(c: Crypto, next: (State, Env) -> State, s: State, envs: seq<Env>, i: nat)
    requires Runs(c, next) && AllProper(envs)
    ensures Finish(next, s, envs, i) == Proceed(c, s, envs, i)
    decreases |envs| - i
  {
    if i < |envs| {
      assert envs[i] in envs;
      assert next(s, envs[i]) == Continue(c, s, envs[i]) == Step(c, s, Next(envs[i]));
      FinishIsRun(c, next, next(s, envs[i]), envs, i + 1);
    }
  }

  lemma FollowReset(c: Crypto, next: (State, Env) -> State, s: State, envs: seq<Env>, i: nat)
    requires Runs(c, next) && i < |envs| && Resetting(s.pc)
    ensures Finish(next, s, envs, i) == Finish(next, ResetStep(s, envs[i]), envs, i + 1)
  {
    assert next(s, envs[i]) == Continue(c, s, envs[i]);
  }

  lemma FollowAdmit(c: Crypto, next: (State, Env) -> State, s: State, envs: seq<Env>, i: nat)
    requires Runs(c, next) && i < |envs| && Admitting(s.pc)
    ensures Finish(next, s, envs, i) == Finish(next, AdmitStep(c, s, envs[i]), envs, i + 1)
  {
    assert next(s, envs[i]) == Continue(c, s, envs[i]);
  }

  lemma FollowStore(c: Crypto, next: (State, Env) -> State, s: State, envs: seq<Env>, i: nat)
    requires Runs(c, next) && i < |envs| && Storing(s.pc)
    ensures Finish(next, s, envs, i) == Finish(next, StoreStep(c, s, envs[i]), envs, i + 1)
  {
    assert next(s, envs[i]) == Continue(c, s, envs[i]);
  }

  lemma FollowUnlock(c: Crypto, next: (State, Env) -> State, s: State, envs: seq<Env>, i: nat)
    requires Runs(c, next) && i < |envs| && !Resetting(s.pc) && !Storing(s.pc) && !Admitting(s.pc)
    ensures Finish(next, s, envs, i) == Finish(next, UnlockStep(c, s, envs[i]), envs, i + 1)
  {
    assert next(s, envs[i]) == Continue(c, s, envs[i]);
  }

  predicate Over(pc: Pc) {
    pc.Ready? || pc.Halted?
  }

  lemma {:induction false} StaysOver(c: Crypto, next: (State, Env) -> State, s: State, envs: seq<Env>, i: nat)
    requires Runs(c, next) && Over(s.pc)
    ensures Finish(next, s, envs, i) == s
    decreases |envs| - i
  {
    if i < |envs| {
      FollowUnlock(c, next, s, envs, i);
      StaysOver(c, next, s, envs, i + 1);
    }
  }

  class Device {
    var attempts: nat
    var eepromEnabled: bool
    var flash: Flash
    var chip: nat
    var unlocked: bool
    var bip39: bool
    var retained: Retained
    ghost var evaluations: nat

    /** The machine's state when these are the globals and `pc` is about to run. */
    ghost function At(pc: Pc, reply: Reply): State
      reads this
    {
      State(attempts, eepromEnabled, flash, chip, unlocked, bip39, retained, pc, reply, evaluations)
    }

    /** As it leaves the factory. */
    constructor (chip: nat, salt: Bytes)
      ensures At(Ready, Unanswered) == Theorems.Factory(chip, salt)
    {
      attempts, eepromEnabled := 0, true;
      flash := Flash(false, false, NoBlob, SaltRoot(salt));
      this.chip := chip;
      unlocked, bip39, retained := false, false, NothingRetained;
      evaluations := 0;
    }

    method Lock()
      modifies this`unlocked, this`bip39, this`retained
      ensures forall pc, reply :: At(pc, reply) == Keystore.Lock(old(At(pc, reply)))
    {
      unlocked := false;
      bip39 := false;
      retained := NothingRetained;
    }

    method CopySeed(c: Crypto, env: Env) returns (seed: Option<Bytes>)
      ensures forall pc, reply :: seed == Keystore.CopySeed(c, At(pc, reply), env)
    {
      if !unlocked || flash.salt.NoSalt? || !env.chipOk || !env.hashOk {
        return None;
      }
      return c.dec(c.stretchKey(chip, flash.salt.bytes, retained.key), retained.bytes);
    }

    method GetAndDecryptSeed(c: Crypto, env: Env, password: Bytes) returns (d: Decrypted)
      ensures forall pc, reply :: d == Keystore.GetAndDecryptSeed(c, At(pc, reply), env, password)
    {
      if !flash.seeded || flash.blob.NoBlob? {
        return Refused(Memory);
      }
      if flash.salt.NoSalt? {
        return Refused(Salt);
      }
      if !env.chipOk {
        return Refused(SecureChip);
      }
      if !env.hashOk {
        return Refused(Hash);
      }
      if |flash.blob.bytes| < 49 {
        return Dies(SeedUnderflow);
      }
      var seed := c.dec(c.stretchPassword(chip, flash.salt.bytes, password), flash.blob.bytes);
      if seed.None? {
        return Refused(IncorrectPassword);
      }
      return if ValidSeedLength(|seed.value|) then Seed(seed.value) else Refused(SeedSize);
    }

    // reset_reset

    method UpdateKeys(c: Crypto, ghost next: (State, Env) -> State, envs: seq<Env>, at: nat, reply: Reply)
      returns (ok: bool, i: nat)
      requires Runs(c, next) && at + RESET_TRIES <= |envs|
      modifies this`chip
      ensures at <= i <= at + RESET_TRIES
      ensures old(Finish(next, At(ResetChip(RESET_TRIES), reply), envs, at)) ==
        if ok then Finish(next, At(ResetCounter(RESET_TRIES), reply), envs, i) else At(Halted(ChipReset), reply)
    {
      i := at;
      ok := false;
      ghost var whole := Finish(next, At(ResetChip(RESET_TRIES), reply), envs, at);
      var tries := RESET_TRIES;
      while tries > 0
        invariant 0 <= tries <= RESET_TRIES && i == at + RESET_TRIES - tries
        invariant tries > 0 ==> whole == Finish(next, At(ResetChip(tries), reply), envs, i)
        invariant tries == 0 ==> whole == Finish(next, At(Halted(ChipReset), reply), envs, i)
      {
        FollowReset(c, next, At(ResetChip(tries), reply), envs, i);
        chip := envs[i].newChip;
        i := i + 1;
        if envs[i - 1].chipOk {
          return true, i;
        }
        tries := tries - 1;
      }
      StaysOver(c, next, At(Halted(ChipReset), reply), envs, i);
    }

    method ClearU2fCounter(c: Crypto, ghost next: (State, Env) -> State, envs: seq<Env>, at: nat, reply: Reply)
      returns (ok: bool, i: nat)
      requires Runs(c, next) && at + RESET_TRIES <= |envs|
      ensures at <= i <= at + RESET_TRIES
      ensures Finish(next, At(ResetCounter(RESET_TRIES), reply), envs, at) ==
        if ok then Finish(next, At(EraseFlash, reply), envs, i) else At(Halted(CounterReset), reply)
    {
      i := at;
      ok := false;
      var tries := RESET_TRIES;
      while tries > 0
        invariant 0 <= tries <= RESET_TRIES && i == at + RESET_TRIES - tries
        invariant Finish(next, At(ResetCounter(RESET_TRIES), reply), envs, at) ==
          Finish(next, At(if tries > 0 then ResetCounter(tries) else Halted(CounterReset), reply), envs, i)
      {
        FollowReset(c, next, At(ResetCounter(tries), reply), envs, i);
        i := i + 1;
        if envs[i - 1].chipOk {
          return true, i;
        }
        tries := tries - 1;
      }
      StaysOver(c, next, At(Halted(CounterReset), reply), envs, i);
    }

    method ResetMemory(c: Crypto, ghost next: (State, Env) -> State, envs: seq<Env>, at: nat, reply: Reply)
      returns (ok: bool)
      requires Runs(c, next) && at + 2 <= |envs|
      modifies this`flash, this`evaluations
      ensures old(Finish(next, At(EraseFlash, reply), envs, at)) ==
        if ok then Finish(next, At(DisableEeprom, reply), envs, at + 2) else At(Halted(MemoryReset), reply)
    {
      FollowReset(c, next, At(EraseFlash, reply), envs, at);
      if !envs[at].flashOk {
        StaysOver(c, next, At(Halted(MemoryReset), reply), envs, at + 1);
        return false;
      }
      flash, evaluations := ErasedFlash, 0;
      FollowReset(c, next, At(InitFlash, reply), envs, at + 1);
      if !envs[at + 1].flashOk {
        StaysOver(c, next, At(Halted(MemoryReset), reply), envs, at + 2);
        return false;
      }
      flash := flash.(salt := SaltRoot(envs[at + 1].newSalt));
      return true;
    }

    /** The SmartEEPROM is off, so the processor starts with an empty one. */
    method DisableEepromAndReboot(c: Crypto, ghost next: (State, Env) -> State, envs: seq<Env>, at: nat, reply: Reply)
      requires Runs(c, next) && at + 2 <= |envs|
      modifies this
      ensures At(Ready, reply) == old(Finish(next, At(DisableEeprom, reply), envs, at))
    {
      FollowReset(c, next, At(DisableEeprom, reply), envs, at);
      eepromEnabled := false;
      FollowReset(c, next, At(Reboot, reply), envs, at + 1);
      Lock();
      attempts, eepromEnabled := 0, true;
      StaysOver(c, next, At(Ready, reply), envs, at + 2);
    }

    method Reset(c: Crypto, ghost next: (State, Env) -> State, envs: seq<Env>, at: nat, reply: Reply) returns (end: Pc)
      requires Runs(c, next) && at + RESET_STATEMENTS <= |envs|
      modifies this
      ensures Over(end) && At(end, reply) == old(Finish(next, At(ResetLock, reply), envs, at))
    {
      FollowReset(c, next, At(ResetLock, reply), envs, at);
      Lock();
      var ok, i := UpdateKeys(c, next, envs, at + 1, reply);
      if !ok {
        return Halted(ChipReset);
      }
      ok, i := ClearU2fCounter(c, next, envs, i, reply);
      if !ok {
        return Halted(CounterReset);
      }
      ok := ResetMemory(c, next, envs, i, reply);
      if !ok {
        return Halted(MemoryReset);
      }
      DisableEepromAndReboot(c, next, envs, i + 2, reply);
      return Ready;
    }

    // keystore_unlock

    /** Count the attempt before it is made. */
    method CountAttempt(c: Crypto, ghost next: (State, Env) -> State, password: Bytes, envs: seq<Env>)
      returns (todo: Pc, i: nat)
      requires Runs(c, next) && |envs| >= 2
      modifies this`attempts
      ensures i <= 2 && (todo.ResetLock? || todo == Evaluate(password) || Over(todo))
      ensures Finish(next, At(todo, Unanswered), envs, i) ==
        old(Finish(next, At(CheckAttempts(password), Unanswered), envs, 0))
    {
      FollowUnlock(c, next, At(CheckAttempts(password), Unanswered), envs, 0);
      if attempts > MAX_UNLOCK_ATTEMPTS {
        return Halted(AttemptsAboveMax), 1;
      }
      if attempts >= MAX_UNLOCK_ATTEMPTS {
        return ResetLock, 1;
      }
      FollowUnlock(c, next, At(Increment(password), Unanswered), envs, 1);
      if !envs[1].eepromOk {
        return Halted(EepromWrite), 2;
      }
      attempts := attempts + 1;
      return Evaluate(password), 2;
    }

    method TryPassword(c: Crypto, ghost next: (State, Env) -> State, password: Bytes, envs: seq<Env>, at: nat)
      returns (todo: Pc, reply: Reply)
      requires Runs(c, next) && at < |envs|
      modifies this`evaluations
      ensures Over(todo) || (reply == Unanswered && (todo.Decide? || todo == Report(IncorrectPassword)))
      ensures Finish(next, At(todo, reply), envs, at + 1) ==
        old(Finish(next, At(Evaluate(password), Unanswered), envs, at))
    {
      reply := Unanswered;
      var d := GetAndDecryptSeed(c, envs[at], password);
      ghost var s := At(Evaluate(password), reply);
      assert d == Keystore.GetAndDecryptSeed(c, s, envs[at], password);
      FollowUnlock(c, next, s, envs, at);
      evaluations := evaluations + 1;
      match d {
        case Seed(seed) => todo := Decide(seed);
        case Refused(IncorrectPassword) => todo := Report(IncorrectPassword);
        case Refused(error) => todo, reply := Ready, Reply(error, None);
        case Dies(reason) => todo := Halted(reason);
      }
    }

    method RetainSeed(c: Crypto, seed: Bytes, env: Env, reply: Reply) returns (result: Error)
      modifies this`retained
      ensures RetainStep(c, old(At(Retain(seed), reply)), env, seed) ==
        if result == Fine then At(MarkUnlocked, reply) else At(Ready, Reply(result, None))
    {
      retained := retained.(key := env.random);
      if flash.salt.NoSalt? {
        return Salt;
      }
      if !env.chipOk {
        return SecureChip;
      }
      if !env.hashOk {
        return Hash;
      }
      var k := c.stretchKey(chip, flash.salt.bytes, retained.key);
      retained := Retained(env.random, c.enc(k, env.iv, seed), env.iv);
      return Fine;
    }

    /** The stored seed is known: compare it with the one retained already. */
    method Compare(c: Crypto, seed: Bytes, env: Env) returns (todo: Pc, reply: Reply)
      requires unlocked
      ensures Over(todo) || (todo.ClearAttempts? && reply == Unanswered)
      ensures DecideStep(At(Decide(seed), Unanswered), Keystore.CopySeed(c, At(Decide(seed), Unanswered), env), seed) ==
        At(todo, reply)
    {
      var current := CopySeed(c, env);
      assert current == Keystore.CopySeed(c, At(Decide(seed), Unanswered), env);
      if current.None? {
        return Ready, Reply(Decrypt, None);
      }
      return if current.value != seed then Halted(SeedChanged) else ClearAttempts, Unanswered;
    }

    /** The stored seed is known: retain it. */
    method Admit(c: Crypto, ghost next: (State, Env) -> State, seed: Bytes, envs: seq<Env>, at: nat)
      returns (todo: Pc, reply: Reply, i: nat)
      requires Runs(c, next) && at + 3 <= |envs|
      modifies this`retained, this`unlocked
      ensures i <= at + 3 && (Over(todo) || (todo.ClearAttempts? && reply == Unanswered))
      ensures Finish(next, At(todo, reply), envs, i) == old(Finish(next, At(Decide(seed), Unanswered), envs, at))
    {
      FollowAdmit(c, next, At(Decide(seed), Unanswered), envs, at);
      if unlocked {
        todo, reply := Compare(c, seed, envs[at]);
        return todo, reply, at + 1;
      }
      ghost var s := At(Retain(seed), Unanswered);
      FollowAdmit(c, next, s, envs, at + 1);
      var result := RetainSeed(c, seed, envs[at + 1], Unanswered);
      if result != Fine {
        return Ready, Reply(result, None), at + 2;
      }
      FollowAdmit(c, next, At(MarkUnlocked, Unanswered), envs, at + 2);
      unlocked := true;
      return ClearAttempts, Unanswered, at + 3;
    }

    method ResetAttempts(c: Crypto, ghost next: (State, Env) -> State, envs: seq<Env>, at: nat) returns (todo: Pc)
      requires Runs(c, next) && at < |envs|
      modifies this`attempts, this`evaluations
      ensures todo == Report(Fine) || Over(todo)
      ensures Finish(next, At(todo, Unanswered), envs, at + 1) ==
        old(Finish(next, At(ClearAttempts, Unanswered), envs, at))
    {
      FollowAdmit(c, next, At(ClearAttempts, Unanswered), envs, at);
      if attempts > MAX_UNLOCK_ATTEMPTS {
        return Halted(AttemptsAboveMax);
      }
      if !envs[at].eepromOk {
        return Halted(EepromWrite);
      }
      attempts, evaluations := 0, 0;
      return Report(Fine);
    }

    /** The password was right. */
    method Accept(c: Crypto, ghost next: (State, Env) -> State, seed: Bytes, envs: seq<Env>, at: nat)
      returns (todo: Pc, reply: Reply, i: nat)
      requires Runs(c, next) && at + 4 <= |envs|
      modifies this`retained, this`unlocked, this`attempts, this`evaluations
      ensures i <= at + 4 && (Over(todo) || (todo == Report(Fine) && reply == Unanswered))
      ensures Finish(next, At(todo, reply), envs, i) == old(Finish(next, At(Decide(seed), Unanswered), envs, at))
    {
      todo, reply, i := Admit(c, next, seed, envs, at);
      if todo.ClearAttempts? {
        todo := ResetAttempts(c, next, envs, i);
        i := i + 1;
      }
    }

    /** Compute the remaining attempts. */
    method ReportAttempts(c: Crypto, ghost next: (State, Env) -> State, error: Error, envs: seq<Env>, at: nat)
      returns (todo: Pc, reply: Reply)
      requires Runs(c, next) && at < |envs|
      ensures todo.ResetLock? || Over(todo)
      ensures Finish(next, At(todo, reply), envs, at + 1) == Finish(next, At(Report(error), Unanswered), envs, at)
    {
      FollowUnlock(c, next, At(Report(error), Unanswered), envs, at);
      if attempts > MAX_UNLOCK_ATTEMPTS {
        return Halted(AttemptsAboveMax), Unanswered;
      }
      if attempts >= MAX_UNLOCK_ATTEMPTS {
        return ResetLock, Unanswered;
      }
      return Ready, Reply(error, Some(MAX_UNLOCK_ATTEMPTS - attempts));
    }

    method UnlockSeeded(c: Crypto, ghost next: (State, Env) -> State, password: Bytes, envs: seq<Env>)
      returns (end: Pc, reply: Reply)
      requires Runs(c, next) && |envs| >= 8 + RESET_STATEMENTS
      modifies this
      ensures Over(end) && At(end, reply) == old(Finish(next, At(CheckAttempts(password), Unanswered), envs, 0))
    {
      var i;
      reply := Unanswered;
      end, i := CountAttempt(c, next, password, envs);
      if end.Evaluate? {
        end, reply := TryPassword(c, next, password, envs, i);
        i := i + 1;
      }
      if end.Decide? {
        end, reply, i := Accept(c, next, end.seed, envs, i);
      }
      if end.Report? {
        end, reply := ReportAttempts(c, next, end.error, envs, i);
        i := i + 1;
      }
      if end.ResetLock? {
        end := Reset(c, next, envs, i, reply);
      } else {
        StaysOver(c, next, At(end, reply), envs, i);
      }
    }

    method Unlock(c: Crypto, ghost next: (State, Env) -> State, password: Bytes, envs: seq<Env>, ghost last: Reply)
      returns (end: Pc, reply: Reply)
      requires Runs(c, next) && |envs| >= 8 + RESET_STATEMENTS
      modifies this
      ensures Over(end)
      ensures At(end, reply) == Finish(next, Start(c, old(At(Ready, last)), Call.Unlock(password)), envs, 0)
    {
      if !flash.seeded {
        end, reply := Ready, Reply(Unseeded, None);
        StaysOver(c, next, At(end, reply), envs, 0);
        return;
      }
      end, reply := UnlockSeeded(c, next, password, envs);
    }

    // keystore_encrypt_and_store_seed

    method EncryptSeed(c: Crypto, seed: Bytes, password: Bytes, env: Env) returns (todo: Pc, reply: Reply)
      ensures todo.StoreWrite? || Over(todo)
      ensures todo.StoreWrite? ==> reply == Unanswered
      ensures At(todo, reply) ==
        StoreEncryptStep(c, At(StoreEncrypt(seed, password), Unanswered), env, seed, password)
    {
      if flash.salt.NoSalt? {
        return Ready, Reply(Salt, None);
      }
      if !env.chipOk {
        return Ready, Reply(SecureChip, None);
      }
      if !env.hashOk {
        return Ready, Reply(Hash, None);
      }
      var salt := flash.salt.bytes;
      var bytes := c.enc(c.stretchPassword(chip, salt, password), env.iv, seed);
      if |bytes| > 255 {
        return Halted(SeedTooLong), Unanswered;
      }
      return StoreWrite(Blob(bytes, seed, password, chip, salt, env.iv)), Unanswered;
    }

    method PrepareChip(c: Crypto, ghost next: (State, Env) -> State, seed: Bytes, password: Bytes, envs: seq<Env>)
      returns (result: Error, i: nat)
      requires Runs(c, next) && |envs| >= 2
      modifies this
      ensures i <= 2
      ensures old(Finish(next, At(StoreLock(seed, password), Unanswered), envs, 0)) ==
        if result == Fine then Finish(next, At(StoreEncrypt(seed, password), Unanswered), envs, i)
        else Finish(next, At(Ready, Reply(result, None)), envs, i)
    {
      FollowStore(c, next, At(StoreLock(seed, password), Unanswered), envs, 0);
      Lock();
      if !ValidSeedLength(|seed|) {
        return SeedSize, 1;
      }
      FollowStore(c, next, At(StoreKeys(seed, password), Unanswered), envs, 1);
      chip := envs[1].newChip;
      return if envs[1].chipOk then Fine else SecureChip, 2;
    }

    method PrepareSeed(c: Crypto, ghost next: (State, Env) -> State, seed: Bytes, password: Bytes, envs: seq<Env>)
      returns (todo: Pc, reply: Reply, i: nat)
      requires Runs(c, next) && |envs| >= 3
      modifies this
      ensures i <= 3 && (Over(todo) || (todo.StoreWrite? && reply == Unanswered))
      ensures Finish(next, At(todo, reply), envs, i) ==
        old(Finish(next, At(StoreLock(seed, password), Unanswered), envs, 0))
    {
      var result;
      result, i := PrepareChip(c, next, seed, password, envs);
      if result != Fine {
        return Ready, Reply(result, None), i;
      }
      FollowStore(c, next, At(StoreEncrypt(seed, password), Unanswered), envs, i);
      todo, reply := EncryptSeed(c, seed, password, envs[i]);
      i := i + 1;
    }

    method WriteSeed(c: Crypto, ghost next: (State, Env) -> State, blob: Blob, envs: seq<Env>, at: nat)
      returns (ok: bool)
      requires Runs(c, next) && at < |envs|
      modifies this`flash
      ensures ok ==> blob.Blob?
      ensures old(Finish(next, At(StoreWrite(blob), Unanswered), envs, at)) ==
        if ok then Finish(next, At(StoreVerify(blob.seed, blob.password), Unanswered), envs, at + 1)
        else Finish(next, At(Ready, Reply(Memory, None)), envs, at + 1)
    {
      FollowStore(c, next, At(StoreWrite(blob), Unanswered), envs, at);
      if !envs[at].flashOk || blob.NoBlob? {
        return false;
      }
      flash := flash.(seeded := true, blob := blob);
      return true;
    }

    method VerifySeed(c: Crypto, ghost next: (State, Env) -> State, seed: Bytes, password: Bytes, envs: seq<Env>, at: nat)
      returns (ok: bool)
      requires Runs(c, next) && at < |envs|
      ensures Finish(next, At(StoreVerify(seed, password), Unanswered), envs, at) ==
        if ok then Finish(next, At(Ready, Reply(Fine, None)), envs, at + 1)
        else Finish(next, At(UndoErase, Unanswered), envs, at + 1)
    {
      var d := GetAndDecryptSeed(c, envs[at], password);
      ghost var s := At(StoreVerify(seed, password), Unanswered);
      assert d == Keystore.GetAndDecryptSeed(c, s, envs[at], password);
      FollowStore(c, next, s, envs, at);
      return d == Seed(seed);
    }

    method UndoStore(c: Crypto, ghost next: (State, Env) -> State, envs: seq<Env>, at: nat)
      requires Runs(c, next) && at + 2 <= |envs|
      modifies this`flash, this`evaluations
      ensures At(Ready, Reply(Memory, None)) == old(Finish(next, At(UndoErase, Unanswered), envs, at))
    {
      FollowStore(c, next, At(UndoErase, Unanswered), envs, at);
      if envs[at].flashOk {
        flash, evaluations := ErasedFlash, 0;
        FollowStore(c, next, At(UndoInit, Unanswered), envs, at + 1);
        if envs[at + 1].flashOk {
          flash := flash.(salt := SaltRoot(envs[at + 1].newSalt));
        }
        StaysOver(c, next, At(Ready, Reply(Memory, None)), envs, at + 2);
      } else {
        StaysOver(c, next, At(Ready, Reply(Memory, None)), envs, at + 1);
      }
    }

    method StoreSeed(c: Crypto, ghost next: (State, Env) -> State, seed: Bytes, password: Bytes, envs: seq<Env>, ghost last: Reply)
      returns (end: Pc, reply: Reply)
      requires Runs(c, next) && |envs| >= 7
      modifies this
      ensures Over(end)
      ensures At(end, reply) == Finish(next, Start(c, old(At(Ready, last)), Store(seed, password)), envs, 0)
    {
      if flash.initialized {
        StaysOver(c, next, At(Ready, Reply(Memory, None)), envs, 0);
        return Ready, Reply(Memory, None);
      }
      var i;
      end, reply, i := PrepareSeed(c, next, seed, password, envs);
      if Over(end) {
        StaysOver(c, next, At(end, reply), envs, i);
        return;
      }
      var blob := end.blob;
      var ok := WriteSeed(c, next, blob, envs, i);
      if !ok {
        StaysOver(c, next, At(Ready, Reply(Memory, None)), envs, i + 1);
        return Ready, Reply(Memory, None);
      }
      ok := VerifySeed(c, next, blob.seed, blob.password, envs, i + 1);
      if ok {
        StaysOver(c, next, At(Ready, Reply(Fine, None)), envs, i + 2);
        return Ready, Reply(Fine, None);
      }
      UndoStore(c, next, envs, i + 2);
      return Ready, Reply(Memory, None);
    }

    // The other calls, which change at most one flag

    method SetInitialized(ok: bool, ghost c: Crypto, ghost last: Reply)
      modifies this`flash
      ensures At(Ready, last) == Start(c, old(At(Ready, last)), Call.SetInitialized(ok))
    {
      if flash.seeded && ok {
        flash := flash.(initialized := true);
      }
    }

    method UnlockBip39(c: Crypto, env: Env, ghost last: Reply)
      modifies this`bip39
      ensures At(Ready, last) == Start(c, old(At(Ready, last)), Call.UnlockBip39(env))
    {
      var seed := CopySeed(c, env);
      assert seed == Keystore.CopySeed(c, At(Ready, last), env);
      if unlocked && seed.Some? && env.mnemonicOk {
        bip39 := true;
      }
    }

    method PowerCycle(ghost pc: Pc, ghost reply: Reply)
      modifies this
      ensures At(Ready, reply) == Boot(old(At(pc, reply)))
    {
      Lock();
      if !eepromEnabled {
        attempts, eepromEnabled := 0, true;
      }
    }

    /** Any call, to its end. */
    method Perform(c: Crypto, call: Call, envs: seq<Env>, last: Reply) returns (end: Pc, reply: Reply)
      requires AllProper(envs) && |envs| >= 8 + RESET_STATEMENTS
      modifies this
      ensures Over(end) && At(end, reply) == Proceed(c, Start(c, old(At(Ready, last)), call), envs, 0)
    {
      ghost var next := (s: State, e: Env) => Continue(c, s, e);
      ghost var started := Start(c, At(Ready, last), call);
      FinishIsRun(c, next, started, envs, 0);
      match call {
        case Unlock(password) => end, reply := Unlock(c, next, password, envs, last);
        case Store(seed, password) => end, reply := StoreSeed(c, next, seed, password, envs, last);
        case Reset =>
          end := Reset(c, next, envs, 0, Unanswered);
          reply := Unanswered;
        case SetInitialized(ok) =>
          SetInitialized(ok, c, last);
          end, reply := Ready, last;
          StaysOver(c, next, started, envs, 0);
        case UnlockBip39(env) =>
          UnlockBip39(c, env, last);
          end, reply := Ready, last;
          StaysOver(c, next, started, envs, 0);
        case LockNow =>
          Lock();
          end, reply := Ready, last;
          StaysOver(c, next, started, envs, 0);
      }
    }
  }

  /** A call with what the hardware does at each of its statements, or the power going off and on. */
  datatype Request = Do(call: Call, envs: seq<Env>) | PowerOffOn

  ghost predicate Sound(c: Crypto, s: State) {
    Theorems.AttemptsInv(s) && Theorems.SeedInv(c, s) && Theorems.StoreInv(s) && Theorems.Fits(s)
  }

  lemma PowerCutKeeps(c: Crypto, s: State)
    requires c.Ideal() && Sound(c, s)
    ensures Sound(c, Boot(s))
  {
    Theorems.StepKeepsAttempts(c, s, PowerCut);
    Theorems.StepKeepsSeed(c, s, PowerCut);
    Theorems.StepKeepsStore(c, s, PowerCut);
    Theorems.SeedFits(c, Boot(s));
  }

  /** A device from the factory that is given any requests, with any failures of the hardware. Whatever
      they are, the attempts are bounded, what is unlocked is the stored seed, and it fits its buffers. */
  method Serve(c: Crypto, chip: nat, salt: Bytes, requests: seq<Request>)
    returns (d: Device, end: Pc, reply: Reply)
    requires c.Ideal()
    requires forall k :: k in requests && k.Do? ==> AllProper(k.envs) && |k.envs| >= 8 + RESET_STATEMENTS
    ensures fresh(d) && Over(end) && Sound(c, d.At(end, reply))
  {
    d := new Device(chip, salt);
    end, reply := Ready, Unanswered;
    Theorems.EveryReachableState(c, chip, salt, []);
    for i := 0 to |requests|
      invariant fresh(d) && Over(end) && Sound(c, d.At(end, reply))
    {
      assert requests[i] in requests;
      match requests[i]
      case PowerOffOn =>
        PowerCutKeeps(c, d.At(end, reply));
        d.PowerCycle(end, reply);
        end := Ready;
      case Do(call, envs) =>
        if end == Ready {
          Theorems.CallKeeps(c, d.At(end, reply), call, envs);
          end, reply := d.Perform(c, call, envs, reply);
        }
    }
  }
}

/** What holds in every state of the keystore, whatever fails and whenever the power is cut. */
module KeystoreTheorems {
  import opened Types
  import opened Keystore
  import Cipher

  // Guessing is bounded

  /** The persistent counter runs ahead of the evaluations, never past ten. */
  predicate CounterInv(s: State) {
    && s.evaluations <= s.attempts <= MAX_UNLOCK_ATTEMPTS
    && (s.pc.Increment? ==> s.attempts < MAX_UNLOCK_ATTEMPTS)
    && (s.pc.Evaluate? ==> s.evaluations < s.attempts)
    && (s.pc == Report(IncorrectPassword) ==> 0 < s.attempts)
    && (s.pc.InitFlash? || s.pc.DisableEeprom? || s.pc.Reboot? ==> s.evaluations == 0)
    && (!s.eepromEnabled ==> s.pc == Reboot)
    && s.pc != Halted(AttemptsAboveMax)
    && s.pc != Halted(IncrementPastMax)
  }

  /** The last answer about a wrong password still tells the true number of attempts left. */
  predicate ReplyInv(s: State) {
    && (s.pc == Ready || s.reply == Unanswered)
    && (s.reply.Reply? && s.reply.error == IncorrectPassword ==>
        s.reply.remaining == Some(MAX_UNLOCK_ATTEMPTS - s.attempts) && 1 <= MAX_UNLOCK_ATTEMPTS - s.attempts <= 9)
  }

  predicate AttemptsInv(s: State) {
    CounterInv(s) && ReplyInv(s)
  }

  lemma UnlockKeepsCounter(c: Crypto, s: State, env: Env)
    requires CounterInv(s)
    ensures CounterInv(UnlockStep(c, s, env))
  {
  }

  lemma AdmitKeepsCounter(c: Crypto, s: State, env: Env)
    requires CounterInv(s)
    ensures CounterInv(AdmitStep(c, s, env))
  {
  }

  lemma ResetKeepsCounter(s: State, env: Env)
    requires CounterInv(s)
    ensures CounterInv(ResetStep(s, env))
  {
  }

  lemma StoreKeepsCounter(c: Crypto, s: State, env: Env)
    requires CounterInv(s)
    ensures CounterInv(StoreStep(c, s, env))
  {
  }

  lemma StepKeepsCounter(c: Crypto, s: State, e: Event)
    requires CounterInv(s)
    ensures CounterInv(Step(c, s, e))
  {
    if e.Next? {
      UnlockKeepsCounter(c, s, e.env);
      AdmitKeepsCounter(c, s, e.env);
      ResetKeepsCounter(s, e.env);
      StoreKeepsCounter(c, s, e.env);
    }
  }

  lemma UnlockKeepsReply(c: Crypto, s: State, env: Env)
    requires AttemptsInv(s) && !Resetting(s.pc) && !Storing(s.pc)
    ensures ReplyInv(UnlockStep(c, s, env))
  {
  }

  lemma AdmitKeepsReply(c: Crypto, s: State, env: Env)
    requires AttemptsInv(s) && Admitting(s.pc)
    ensures ReplyInv(AdmitStep(c, s, env))
  {
  }

  lemma ResetKeepsReply(c: Crypto, s: State, env: Env)
    requires AttemptsInv(s) && (Resetting(s.pc) || Storing(s.pc))
    ensures ReplyInv(ResetStep(s, env)) && ReplyInv(StoreStep(c, s, env))
  {
  }

  lemma StepKeepsAttempts(c: Crypto, s: State, e: Event)
    requires AttemptsInv(s)
    ensures AttemptsInv(Step(c, s, e))
  {
    StepKeepsCounter(c, s, e);
    if e.Next? {
      if Resetting(s.pc) || Storing(s.pc) {
        ResetKeepsReply(c, s, e.env);
      } else {
        UnlockKeepsReply(c, s, e.env);
        if Admitting(s.pc) {
          AdmitKeepsReply(c, s, e.env);
        }
      }
    }
  }

  /** In every run, with the power cut anywhere: at most ten passwords are evaluated between
      successful unlocks or resets, the two aborts on the counter never happen, and every answer about a
      wrong password tells ten minus the counter, which is at least one. */
  lemma {:induction false} RunKeepsAttempts(c: Crypto, s: State, events: seq<Event>)
    requires AttemptsInv(s)
    ensures AttemptsInv(Run(c, s, events))
    decreases |events|
  {
    if events != [] {
      StepKeepsAttempts(c, s, events[0]);
      RunKeepsAttempts(c, Step(c, s, events[0]), events[1..]);
    }
  }

  /** Where the answer about a wrong password comes from: it is given while an attempt is left, and the
      tenth wrong password goes to the reset instead. */
  lemma IncorrectPasswordReply(c: Crypto, s: State, env: Env)
    requires AttemptsInv(s) && s.pc == Report(IncorrectPassword) && Proper(env)
    ensures
      var t := Step(c, s, Next(env));
      if s.attempts < MAX_UNLOCK_ATTEMPTS then
        t.pc == Ready && t.reply == Reply(IncorrectPassword, Some(10 - t.attempts)) && 1 <= 10 - t.attempts <= 9
      else t.pc == ResetLock
  {
  }

  // The retained seed is the stored seed

  ghost predicate GoodBlob(c: Crypto, b: Blob) {
    && b.Blob?
    && |b.iv| == 16
    && ValidSeedLength(|b.seed|)
    && b.bytes == c.enc(c.stretchPassword(b.chip, b.salt, b.password), b.iv, b.seed)
  }

  ghost predicate RetainedHolds(c: Crypto, s: State, seed: Bytes) {
    && s.flash.salt.SaltRoot?
    && |s.retained.iv| == 16
    && s.retained.bytes == c.enc(c.stretchKey(s.chip, s.flash.salt.bytes, s.retained.key), s.retained.iv, seed)
  }

  /** Statements that run only on a locked device. */
  predicate RunsLocked(pc: Pc) {
    || pc.Retain? || pc.MarkUnlocked?
    || pc.ResetChip? || pc.ResetCounter? || pc.EraseFlash? || pc.InitFlash? || pc.DisableEeprom? || pc.Reboot?
    || pc.StoreKeys? || pc.StoreEncrypt? || pc.StoreWrite? || pc.StoreVerify? || pc.UndoErase? || pc.UndoInit?
  }

  ghost predicate SeedInv(c: Crypto, s: State) {
    && (s.flash.blob.Blob? ==> GoodBlob(c, s.flash.blob))
    && (s.flash.seeded ==> s.flash.blob.Blob?)
    && (s.unlocked ==> s.flash.seeded && RetainedHolds(c, s, s.flash.blob.seed))
    && (s.bip39 ==> s.unlocked)
    && (RunsLocked(s.pc) ==> !s.unlocked)
    && (match s.pc
        case Decide(seed) => s.flash.seeded && seed == s.flash.blob.seed
        case Retain(seed) => s.flash.seeded && seed == s.flash.blob.seed
        case MarkUnlocked => s.flash.seeded && RetainedHolds(c, s, s.flash.blob.seed)
        case StoreKeys(seed, _) => ValidSeedLength(|seed|)
        case StoreEncrypt(seed, _) => ValidSeedLength(|seed|)
        case StoreWrite(blob) => GoodBlob(c, blob)
        case Halted(reason) => reason !in {SeedChanged, SeedUnderflow, SeedTooLong}
        case _ => true)
  }

  lemma OpensWithItsKeyOnly(c: Crypto, k: Bytes, l: Bytes, iv: Bytes, seed: Bytes)
    requires c.Opens() && c.Authentic() && |k| == 32 && |l| == 32 && |iv| == 16 && ValidSeedLength(|seed|)
    ensures c.dec(l, c.enc(k, iv, seed)) == if k == l then Some(seed) else None
    ensures 80 <= |c.enc(k, iv, seed)| <= SEED_FIELD_LEN
  {
  }

  /** Whatever the password, decryption gives the stored seed or refuses. */
  predicate Faithful(s: State, d: Decrypted) {
    !d.Dies? && (d.Seed? ==> s.flash.seeded && s.flash.blob.Blob? && d.seed == s.flash.blob.seed)
  }

  lemma DecryptsToStoredSeed(c: Crypto, s: State, env: Env, password: Bytes)
    requires c.Ideal() && SeedInv(c, s)
    ensures Faithful(s, GetAndDecryptSeed(c, s, env, password))
  {
    if s.flash.seeded && StretchPassword(c, s, env, password).Stretched? {
      var b := s.flash.blob;
      OpensWithItsKeyOnly(c, c.stretchPassword(b.chip, b.salt, b.password),
        c.stretchPassword(s.chip, s.flash.salt.bytes, password), b.iv, b.seed);
    }
  }

  lemma CopiesStoredSeed(c: Crypto, s: State, env: Env)
    requires c.Ideal() && SeedInv(c, s) && s.unlocked
    ensures CopySeed(c, s, env) == if env.chipOk && env.hashOk then Some(s.flash.blob.seed) else None
  {
    var k := c.stretchKey(s.chip, s.flash.salt.bytes, s.retained.key);
    OpensWithItsKeyOnly(c, k, k, s.retained.iv, s.flash.blob.seed);
  }

  lemma UnlockKeepsSeed(c: Crypto, s: State, env: Env)
    requires SeedInv(c, s)
    requires s.pc.Evaluate? ==> Faithful(s, GetAndDecryptSeed(c, s, env, s.pc.password))
    ensures SeedInv(c, UnlockStep(c, s, env))
  {
  }

  lemma AdmitKeepsSeed(c: Crypto, s: State, env: Env)
    requires SeedInv(c, s) && Proper(env)
    requires s.pc.Decide? && s.unlocked ==> CopySeed(c, s, env) in {None, Some(s.flash.blob.seed)}
    ensures SeedInv(c, AdmitStep(c, s, env))
  {
  }

  lemma ResetKeepsSeed(c: Crypto, s: State, env: Env)
    requires SeedInv(c, s)
    ensures SeedInv(c, ResetStep(s, env))
  {
  }

  lemma StoreKeepsSeed(c: Crypto, s: State, env: Env)
    requires SeedInv(c, s) && Proper(env)
    requires s.pc.StoreEncrypt? && s.flash.salt.SaltRoot? ==>
      |c.enc(c.stretchPassword(s.chip, s.flash.salt.bytes, s.pc.password), env.iv, s.pc.seed)| <= SEED_FIELD_LEN
    ensures SeedInv(c, StoreStep(c, s, env))
  {
  }

  lemma StartKeepsSeed(c: Crypto, s: State, call: Call)
    requires SeedInv(c, s) && s.pc == Ready
    ensures SeedInv(c, Start(c, s, call))
  {
  }

  lemma ContinueKeepsSeed(c: Crypto, s: State, env: Env)
    requires c.Ideal() && SeedInv(c, s) && Proper(env)
    ensures SeedInv(c, Continue(c, s, env))
  {
    if s.pc.Evaluate? {
      DecryptsToStoredSeed(c, s, env, s.pc.password);
    }
    if s.unlocked {
      CopiesStoredSeed(c, s, env);
    }
    if s.pc.StoreEncrypt? && s.flash.salt.SaltRoot? {
      var k := c.stretchPassword(s.chip, s.flash.salt.bytes, s.pc.password);
      OpensWithItsKeyOnly(c, k, k, env.iv, s.pc.seed);
    }
    UnlockKeepsSeed(c, s, env);
    AdmitKeepsSeed(c, s, env);
    ResetKeepsSeed(c, s, env);
    StoreKeepsSeed(c, s, env);
  }

  lemma StepKeepsSeed(c: Crypto, s: State, e: Event)
    requires c.Ideal() && SeedInv(c, s)
    ensures SeedInv(c, Step(c, s, e))
  {
    match e
    case Begin(call) =>
      if s.pc == Ready {
        StartKeepsSeed(c, s, call);
      }
    case Next(env) =>
      if Proper(env) {
        ContinueKeepsSeed(c, s, env);
      }
    case PowerCut =>
  }

  /** In every reachable state an unlocked device retains the stored seed, whatever chip, salt or
      flash calls failed on the way; "seed has suddenly changed" cannot happen, and neither can the
      two length aborts. */
  lemma {:induction false} RunKeepsSeed(c: Crypto, s: State, events: seq<Event>)
    requires c.Ideal() && SeedInv(c, s)
    ensures SeedInv(c, Run(c, s, events))
    decreases |events|
  {
    if events != [] {
      StepKeepsSeed(c, s, events[0]);
      RunKeepsSeed(c, Step(c, s, events[0]), events[1..]);
    }
  }

  /** On an unlocked device no statement of an unlock call changes what is retained, whatever the
      password and whatever fails; only a reset does. */
  lemma UnlockStatementKeepsRetained(c: Crypto, s: State, env: Env)
    requires SeedInv(c, s) && s.unlocked && !Resetting(s.pc) && !Storing(s.pc)
    ensures Continue(c, s, env).unlocked && Continue(c, s, env).retained == s.retained
  {
  }

  predicate Wrong(c: Crypto, s: State, env: Env, password: Bytes) {
    GetAndDecryptSeed(c, s, env, password) == Refused(IncorrectPassword)
  }

  /** No attempt is left, or the last one is counted and the password is wrong. */
  predicate UsesUp(c: Crypto, s: State, password: Bytes, increment: Env, evaluate: Env) {
    || s.attempts >= MAX_UNLOCK_ATTEMPTS
    || (s.attempts == MAX_UNLOCK_ATTEMPTS - 1 && increment.eepromOk && Wrong(c, s, evaluate, password))
  }

  /** Whether the call in progress goes on to the reset. */
  predicate GoesToReset(c: Crypto, s: State, envs: seq<Env>, i: nat) {
    match s.pc
    case CheckAttempts(p) => i + 2 < |envs| && UsesUp(c, s, p, envs[i + 1], envs[i + 2])
    case Increment(p) => i + 1 < |envs| && UsesUp(c, s, p, envs[i], envs[i + 1])
    case Evaluate(p) => i < |envs| && s.attempts >= MAX_UNLOCK_ATTEMPTS && Wrong(c, s, envs[i], p)
    case Report(_) => s.attempts >= MAX_UNLOCK_ATTEMPTS
    case _ => Resetting(s.pc)
  }

  predicate Unlocking(pc: Pc) {
    pc.CheckAttempts? || pc.Increment? || pc.Evaluate? || pc.Report?
  }

  /** The statements still to run before the reset locks the device. */
  function BeforeLock(pc: Pc): nat {
    match pc
    case CheckAttempts(_) => 5
    case Increment(_) => 4
    case Evaluate(_) => 3
    case Report(_) => 2
    case ResetLock => 1
    case _ => 0
  }

  /** There is an outcome for every statement of the call in progress that can matter. */
  predicate Enough(pc: Pc, envs: seq<Env>, i: nat) {
    i + (if pc.CheckAttempts? then 2 else if pc.Increment? then 1 else 0) < |envs|
  }

  lemma ResetIsDecided(c: Crypto, s: State, envs: seq<Env>, i: nat)
    requires AttemptsInv(s) && Unlocking(s.pc) && Enough(s.pc, envs, i)
    ensures
      var t := UnlockStep(c, s, envs[i]);
      && (GoesToReset(c, t, envs, i + 1) <==> GoesToReset(c, s, envs, i))
      && (Unlocking(t.pc) && !t.pc.Report? ==> Enough(t.pc, envs, i + 1))
      && (GoesToReset(c, s, envs, i) ==> 0 < BeforeLock(t.pc) < BeforeLock(s.pc))
      && !Storing(t.pc)
  {
  }

  lemma AdmitNeverResets(c: Crypto, s: State, envs: seq<Env>, i: nat)
    requires AttemptsInv(s) && Admitting(s.pc) && i < |envs|
    ensures
      var t := AdmitStep(c, s, envs[i]);
      !GoesToReset(c, t, envs, i + 1) && !Storing(t.pc) && (Unlocking(t.pc) ==> t.pc.Report?)
  {
  }

  /** An unlocked device in a call that does not go to the reset. */
  ghost predicate Staying(c: Crypto, s: State, envs: seq<Env>, i: nat) {
    && SeedInv(c, s) && AttemptsInv(s) && s.unlocked && !Storing(s.pc) && !Resetting(s.pc)
    && (Unlocking(s.pc) && !s.pc.Report? ==> Enough(s.pc, envs, i))
    && !GoesToReset(c, s, envs, i)
  }

  lemma StepStays(c: Crypto, s: State, envs: seq<Env>, i: nat)
    requires c.Ideal() && Staying(c, s, envs, i) && i < |envs| && Proper(envs[i])
    ensures Staying(c, Step(c, s, Next(envs[i])), envs, i + 1)
    ensures Step(c, s, Next(envs[i])).retained == s.retained
  {
    UnlockStatementKeepsRetained(c, s, envs[i]);
    StepKeepsSeed(c, s, Next(envs[i]));
    StepKeepsAttempts(c, s, Next(envs[i]));
    if Unlocking(s.pc) {
      ResetIsDecided(c, s, envs, i);
    } else if Admitting(s.pc) {
      AdmitNeverResets(c, s, envs, i);
    }
  }

  lemma {:induction false} StaysUnlocked(c: Crypto, s: State, envs: seq<Env>, i: nat)
    requires c.Ideal() && Staying(c, s, envs, i) && forall e | e in envs :: Proper(e)
    ensures
      var t := Proceed(c, s, envs, i);
      t.unlocked && t.retained == s.retained
    decreases |envs| - i
  {
    if i < |envs| {
      assert envs[i] in envs;
      StepStays(c, s, envs, i);
      StaysUnlocked(c, Step(c, s, Next(envs[i])), envs, i + 1);
    }
  }

  /** Locked, and only a reset can still be running. */
  predicate Gone(s: State) {
    !s.unlocked && (Resetting(s.pc) || s.pc.Ready? || s.pc.Halted?)
  }

  lemma StepStaysGone(c: Crypto, s: State, env: Env)
    requires Gone(s)
    ensures Gone(Step(c, s, Next(env)))
  {
  }

  lemma {:induction false} StaysGone(c: Crypto, s: State, envs: seq<Env>, i: nat)
    requires Gone(s)
    ensures Gone(Proceed(c, s, envs, i))
    decreases |envs| - i
  {
    if i < |envs| {
      StepStaysGone(c, s, envs[i]);
      StaysGone(c, Step(c, s, Next(envs[i])), envs, i + 1);
    }
  }

  /** A device as a reset leaves it: no seed, a new salt root, no attempts counted, locked. */
  predicate Wiped(s: State) {
    && !s.flash.seeded && !s.flash.initialized && s.flash.blob == NoBlob && s.flash.salt.SaltRoot?
    && s.attempts == 0 && !s.unlocked && !s.bip39 && s.retained == NothingRetained
  }

  /** A reset at any of its statements and after its end. */
  predicate Wiping(s: State) {
    match s.pc
    case InitFlash => s.flash == ErasedFlash
    case DisableEeprom => s.flash == ErasedFlash.(salt := s.flash.salt) && s.flash.salt.SaltRoot?
    case Reboot => s.flash == ErasedFlash.(salt := s.flash.salt) && s.flash.salt.SaltRoot? && !s.eepromEnabled
    case Ready => Wiped(s)
    case Halted(_) => true
    case _ => Resetting(s.pc)
  }

  lemma StepWipes(c: Crypto, s: State, env: Env)
    requires Wiping(s)
    ensures Wiping(Step(c, s, Next(env)))
  {
  }

  lemma {:induction false} ProceedWipes(c: Crypto, s: State, envs: seq<Env>, i: nat)
    requires Wiping(s)
    ensures Wiping(Proceed(c, s, envs, i))
    decreases |envs| - i
  {
    if i < |envs| {
      StepWipes(c, s, envs[i]);
      ProceedWipes(c, Step(c, s, Next(envs[i])), envs, i + 1);
    }
  }

  /** A reset that comes to its end has erased the seed, whatever the hardware did on the way. */
  lemma ResetErases(c: Crypto, s: State, envs: seq<Env>)
    requires s.pc == Ready
    ensures
      var t := Proceed(c, Start(c, s, Reset), envs, 0);
      t.pc == Ready ==> Wiped(t)
  {
    ProceedWipes(c, Start(c, s, Reset), envs, 0);
  }

  lemma {:induction false} ResetLocks(c: Crypto, s: State, envs: seq<Env>, i: nat)
    requires AttemptsInv(s) && GoesToReset(c, s, envs, i) && (Unlocking(s.pc) || s.pc.ResetLock?)
    requires i + BeforeLock(s.pc) <= |envs| && forall e | e in envs :: Proper(e)
    ensures
      var t := Proceed(c, s, envs, i);
      !t.unlocked && Wiping(t)
    decreases |envs| - i
  {
    assert envs[i] in envs;
    var t := Step(c, s, Next(envs[i]));
    if s.pc.ResetLock? {
      StaysGone(c, t, envs, i + 1);
      ProceedWipes(c, t, envs, i + 1);
    } else {
      ResetIsDecided(c, s, envs, i);
      StepKeepsAttempts(c, s, Next(envs[i]));
      ResetLocks(c, t, envs, i + 1);
    }
  }

  /** An unlock call that uses up the last attempt leaves no seed behind: when the device comes to rest, it
      is wiped. */
  lemma UsedUpIsWiped(c: Crypto, s: State, password: Bytes, envs: seq<Env>)
    requires AttemptsInv(s) && s.pc == Ready && s.flash.seeded
    requires |envs| >= 5 && (forall e | e in envs :: Proper(e)) && UsesUp(c, s, password, envs[1], envs[2])
    ensures
      var t := Proceed(c, Start(c, s, Unlock(password)), envs, 0);
      t.pc == Ready ==> Wiped(t)
  {
    StepKeepsAttempts(c, s, Begin(Unlock(password)));
    ResetLocks(c, Start(c, s, Unlock(password)), envs, 0);
  }

  /** An unlock call on an unlocked device, whatever the password and whatever fails, leaves it unlocked
      with what it retains, if and only if it does not use up the last attempt; otherwise the device is
      reset and locked. */
  lemma UnlockWhileUnlocked(c: Crypto, s: State, password: Bytes, envs: seq<Env>)
    requires c.Ideal() && SeedInv(c, s) && AttemptsInv(s) && s.pc == Ready && s.unlocked
    requires |envs| >= 5 && forall e | e in envs :: Proper(e)
    ensures
      var t := Proceed(c, Start(c, s, Unlock(password)), envs, 0);
      && (t.unlocked <==> !UsesUp(c, s, password, envs[1], envs[2]))
      && (t.unlocked ==> t.retained == s.retained)
  {
    var started := Start(c, s, Unlock(password));
    StartKeepsSeed(c, s, Unlock(password));
    StepKeepsAttempts(c, s, Begin(Unlock(password)));
    if GoesToReset(c, started, envs, 0) {
      ResetLocks(c, started, envs, 0);
    } else {
      StaysUnlocked(c, started, envs, 0);
    }
  }

  // Store, unlock, copy

  /** The flash holds a seed under a password that the present chip keys and salt can open. */
  predicate Holds(s: State, seed: Bytes, password: Bytes) {
    && s.flash.seeded && s.flash.blob.Blob? && s.flash.salt.SaltRoot?
    && s.flash.blob.seed == seed && s.flash.blob.password == password
    && s.flash.blob.chip == s.chip && s.flash.blob.salt == s.flash.salt.bytes
  }

  predicate StoreInv(s: State) {
    match s.pc
    case StoreWrite(blob) =>
      blob.Blob? && s.flash.salt.SaltRoot? && blob.chip == s.chip && blob.salt == s.flash.salt.bytes
    case StoreVerify(seed, password) => Holds(s, seed, password)
    case _ => true
  }

  lemma StoreStepKeepsStore(c: Crypto, s: State, env: Env)
    requires StoreInv(s)
    ensures StoreInv(StoreStep(c, s, env))
  {
  }

  lemma StepKeepsStore(c: Crypto, s: State, e: Event)
    requires StoreInv(s)
    ensures StoreInv(Step(c, s, e))
  {
    if e.Next? {
      StoreStepKeepsStore(c, s, e.env);
    }
  }

  /** A store call for this seed and this password, at any of its statements and after its end. */
  predicate StoringThem(s: State, seed: Bytes, password: Bytes) {
    match s.pc
    case StoreLock(x, p) => x == seed && p == password
    case StoreKeys(x, p) => x == seed && p == password
    case StoreEncrypt(x, p) => x == seed && p == password
    case StoreWrite(blob) => blob.Blob? && blob.seed == seed && blob.password == password
    case StoreVerify(x, p) => x == seed && p == password
    case UndoErase => true
    case UndoInit => true
    case Halted(_) => true
    case Ready => s.reply == Reply(Fine, None) ==> Holds(s, seed, password)
    case _ => false
  }

  lemma EncryptStoresThem(c: Crypto, s: State, env: Env, seed: Bytes, password: Bytes)
    requires s.pc == StoreEncrypt(seed, password)
    ensures StoringThem(StoreEncryptStep(c, s, env, seed, password), seed, password)
  {
  }

  lemma VerifyStoresThem(s: State, d: Decrypted, seed: Bytes, password: Bytes)
    requires s.pc == StoreVerify(seed, password) && StoreInv(s)
    ensures StoringThem(StoreVerifyStep(s, d, seed), seed, password)
  {
  }

  lemma StoreStepStoresThem(c: Crypto, s: State, env: Env, seed: Bytes, password: Bytes)
    requires StoringThem(s, seed, password) && StoreInv(s) && Storing(s.pc)
    ensures StoringThem(StoreStep(c, s, env), seed, password)
  {
    match s.pc
    case StoreEncrypt(_, _) => EncryptStoresThem(c, s, env, seed, password);
    case StoreVerify(_, _) => VerifyStoresThem(s, GetAndDecryptSeed(c, s, env, password), seed, password);
    case _ =>
  }

  lemma StepStoresThem(c: Crypto, s: State, env: Env, seed: Bytes, password: Bytes)
    requires StoringThem(s, seed, password) && StoreInv(s)
    ensures StoringThem(Step(c, s, Next(env)), seed, password)
  {
    if Storing(s.pc) {
      StoreStepStoresThem(c, s, env, seed, password);
    }
  }

  lemma {:induction false} ProceedStoresThem(
    c: Crypto, s: State, envs: seq<Env>, i: nat, seed: Bytes, password: Bytes)
    requires StoringThem(s, seed, password) && StoreInv(s)
    ensures StoringThem(Proceed(c, s, envs, i), seed, password)
    decreases |envs| - i
  {
    if i < |envs| {
      StepStoresThem(c, s, envs[i], seed, password);
      StepKeepsStore(c, s, Next(envs[i]));
      ProceedStoresThem(c, Step(c, s, Next(envs[i])), envs, i + 1, seed, password);
    }
  }

  /** A store call answers OK only if the flash then holds the seed it was given under the password it was
      given, openable with the present chip keys and salt. */
  lemma StoreAnswersFine(c: Crypto, s: State, seed: Bytes, password: Bytes, envs: seq<Env>)
    requires s.pc == Ready
    ensures
      var t := Proceed(c, Start(c, s, Store(seed, password)), envs, 0);
      t.pc == Ready && t.reply == Reply(Fine, None) ==> Holds(t, seed, password)
  {
    ProceedStoresThem(c, Start(c, s, Store(seed, password)), envs, 0, seed, password);
  }

  /** Nothing but a store or a reset takes it away. */
  lemma StepKeepsHolds(c: Crypto, s: State, e: Event, seed: Bytes, password: Bytes)
    requires Holds(s, seed, password) && !Resetting(s.pc) && !Storing(s.pc)
    ensures Holds(Step(c, s, e), seed, password)
  {
  }

  predicate Quiet(c: Crypto, s: State, events: seq<Event>)
    decreases |events|
  {
    !Resetting(s.pc) && !Storing(s.pc) && (events != [] ==> Quiet(c, Step(c, s, events[0]), events[1..]))
  }

  lemma {:induction false} RunKeepsHolds(c: Crypto, s: State, events: seq<Event>, seed: Bytes, password: Bytes)
    requires Holds(s, seed, password) && Quiet(c, s, events)
    ensures Holds(Run(c, s, events), seed, password)
    decreases |events|
  {
    if events != [] {
      StepKeepsHolds(c, s, events[0], seed, password);
      RunKeepsHolds(c, Step(c, s, events[0]), events[1..], seed, password);
    }
  }

  /** How many statements a successful unlock has left. */
  function Left(pc: Pc): nat {
    match pc
    case CheckAttempts(_) => 8
    case Increment(_) => 7
    case Evaluate(_) => 6
    case Decide(_) => 5
    case Retain(_) => 4
    case MarkUnlocked => 3
    case ClearAttempts => 2
    case Report(_) => 1
    case _ => 0
  }

  /** The password stretches, with the present chip keys and salt, to the key that the stored blob was
      made with. */
  predicate Opens(c: Crypto, s: State, password: Bytes) {
    && s.flash.seeded && s.flash.blob.Blob? && s.flash.salt.SaltRoot?
    && c.stretchPassword(s.chip, s.flash.salt.bytes, password) ==
       c.stretchPassword(s.flash.blob.chip, s.flash.blob.salt, s.flash.blob.password)
  }

  predicate Succeeding(c: Crypto, s: State, seed: Bytes, password: Bytes) {
    && Opens(c, s, password) && s.flash.blob.seed == seed
    && s.attempts <= MAX_UNLOCK_ATTEMPTS
    && (match s.pc
        case CheckAttempts(p) => p == password && s.attempts < MAX_UNLOCK_ATTEMPTS
        case Increment(p) => p == password && s.attempts < MAX_UNLOCK_ATTEMPTS
        case Evaluate(p) => p == password
        case Decide(x) => x == seed
        case Retain(x) => x == seed
        case MarkUnlocked => true
        case ClearAttempts => s.unlocked
        case Report(error) => s.unlocked && error == Fine && s.attempts == 0
        case Ready => s.unlocked && s.attempts == 0 && s.reply == Reply(Fine, Some(MAX_UNLOCK_ATTEMPTS))
        case _ => false)
  }

  predicate Obliging(env: Env) {
    Proper(env) && env.chipOk && env.hashOk && env.eepromOk
  }

  /** Decryption gives the stored seed exactly if the password opens it and the chip obliges. */
  lemma RightPasswordOpens(c: Crypto, s: State, env: Env, password: Bytes)
    requires c.Ideal() && SeedInv(c, s)
    ensures GetAndDecryptSeed(c, s, env, password).Seed? <==> Opens(c, s, password) && env.chipOk && env.hashOk
  {
    if s.flash.seeded && s.flash.salt.SaltRoot? {
      var b := s.flash.blob;
      OpensWithItsKeyOnly(c, c.stretchPassword(b.chip, b.salt, b.password),
        c.stretchPassword(s.chip, s.flash.salt.bytes, password), b.iv, b.seed);
    }
  }

  lemma UnlockStepSucceeds(c: Crypto, s: State, env: Env, seed: Bytes, password: Bytes)
    requires Succeeding(c, s, seed, password) && !Admitting(s.pc) && Obliging(env)
    requires s.pc.Evaluate? ==> GetAndDecryptSeed(c, s, env, password) == Seed(seed)
    ensures Succeeding(c, UnlockStep(c, s, env), seed, password)
    ensures Left(UnlockStep(c, s, env).pc) <= if s.pc == Ready then 0 else Left(s.pc) - 1
  {
  }

  lemma AdmitStepSucceeds(c: Crypto, s: State, env: Env, seed: Bytes, password: Bytes)
    requires Succeeding(c, s, seed, password) && Admitting(s.pc) && Obliging(env)
    requires s.unlocked ==> CopySeed(c, s, env) == Some(seed)
    ensures Succeeding(c, AdmitStep(c, s, env), seed, password)
    ensures Left(AdmitStep(c, s, env).pc) < Left(s.pc)
  {
  }

  lemma ContinueSucceeds(c: Crypto, s: State, env: Env, seed: Bytes, password: Bytes)
    requires c.Ideal() && SeedInv(c, s) && Succeeding(c, s, seed, password) && Obliging(env)
    ensures Succeeding(c, Continue(c, s, env), seed, password)
    ensures Left(Continue(c, s, env).pc) <= if s.pc == Ready then 0 else Left(s.pc) - 1
  {
    if Admitting(s.pc) {
      if s.unlocked {
        CopiesStoredSeed(c, s, env);
      }
      AdmitStepSucceeds(c, s, env, seed, password);
    } else {
      if s.pc.Evaluate? {
        RightPasswordOpens(c, s, env, password);
        DecryptsToStoredSeed(c, s, env, password);
      }
      UnlockStepSucceeds(c, s, env, seed, password);
    }
  }

  lemma {:induction false} UnlockRuns(c: Crypto, s: State, envs: seq<Env>, i: nat, seed: Bytes, password: Bytes)
    requires c.Ideal() && SeedInv(c, s) && Succeeding(c, s, seed, password)
    requires Left(s.pc) <= |envs| - i && forall e | e in envs :: Obliging(e)
    ensures
      var t := Proceed(c, s, envs, i);
      t.pc == Ready && Succeeding(c, t, seed, password) && SeedInv(c, t)
    decreases |envs| - i
  {
    if i < |envs| {
      ContinueSucceeds(c, s, envs[i], seed, password);
      StepKeepsSeed(c, s, Next(envs[i]));
      UnlockRuns(c, Step(c, s, Next(envs[i])), envs, i + 1, seed, password);
    }
  }

  function StatementsLeft(pc: Pc): nat {
    match pc
    case StoreLock(_, _) => 5
    case StoreKeys(_, _) => 4
    case StoreEncrypt(_, _) => 3
    case StoreWrite(_) => 2
    case StoreVerify(_, _) => 1
    case _ => 0
  }

  ghost predicate StoringWell(c: Crypto, s: State, seed: Bytes, password: Bytes) {
    && SeedInv(c, s) && StoreInv(s) && StoringThem(s, seed, password)
    && s.flash.salt.SaltRoot? && ValidSeedLength(|seed|)
    && (if s.pc == Ready then s.reply == Reply(Fine, None) else StatementsLeft(s.pc) > 0)
  }

  lemma StoreStepGoesOn(c: Crypto, s: State, env: Env, seed: Bytes, password: Bytes)
    requires StoringThem(s, seed, password) && Storing(s.pc) && StatementsLeft(s.pc) > 0
    requires s.flash.salt.SaltRoot? && ValidSeedLength(|seed|) && env.chipOk && env.hashOk && env.flashOk
    requires s.pc.StoreEncrypt? ==>
      |c.enc(c.stretchPassword(s.chip, s.flash.salt.bytes, password), env.iv, seed)| <= SEED_FIELD_LEN
    requires s.pc.StoreVerify? ==> GetAndDecryptSeed(c, s, env, password) == Seed(seed)
    ensures
      var t := StoreStep(c, s, env);
      && t.flash.salt.SaltRoot? && StatementsLeft(t.pc) == StatementsLeft(s.pc) - 1
      && (t.pc == Ready <==> StatementsLeft(t.pc) == 0) && (t.pc == Ready ==> t.reply == Reply(Fine, None))
  {
  }

  lemma StepStoresWell(c: Crypto, s: State, env: Env, seed: Bytes, password: Bytes)
    requires c.Ideal() && StoringWell(c, s, seed, password) && s.pc != Ready && Obliging(env) && env.flashOk
    ensures
      var t := Step(c, s, Next(env));
      StoringWell(c, t, seed, password) && StatementsLeft(t.pc) == StatementsLeft(s.pc) - 1
  {
    if s.pc.StoreEncrypt? {
      var k := c.stretchPassword(s.chip, s.flash.salt.bytes, password);
      OpensWithItsKeyOnly(c, k, k, env.iv, seed);
    }
    if s.pc.StoreVerify? {
      RightPasswordOpens(c, s, env, password);
      DecryptsToStoredSeed(c, s, env, password);
    }
    StoreStepGoesOn(c, s, env, seed, password);
    StepKeepsSeed(c, s, Next(env));
    StepKeepsStore(c, s, Next(env));
    StepStoresThem(c, s, env, seed, password);
  }

  lemma {:induction false} StoreRuns(c: Crypto, s: State, envs: seq<Env>, i: nat, seed: Bytes, password: Bytes)
    requires c.Ideal() && StoringWell(c, s, seed, password)
    requires i + StatementsLeft(s.pc) == |envs| && forall e | e in envs :: Obliging(e) && e.flashOk
    ensures
      var t := Proceed(c, s, envs, i);
      t.pc == Ready && t.reply == Reply(Fine, None)
    decreases |envs| - i
  {
    if s.pc != Ready {
      StepStoresWell(c, s, envs[i], seed, password);
      StoreRuns(c, Step(c, s, Next(envs[i])), envs, i + 1, seed, password);
    }
  }

  lemma {:induction false} IdleStays(c: Crypto, s: State, envs: seq<Env>, i: nat)
    requires s.pc == Ready
    ensures Proceed(c, s, envs, i) == s
    decreases |envs| - i
  {
    if i < |envs| {
      IdleStays(c, Step(c, s, Next(envs[i])), envs, i + 1);
    }
  }

  /** With obliging hardware storing answers OK, after five statements, exactly for seeds of 16, 24 or 32
      bytes on a device that is not initialized. */
  lemma StoreSucceeds(c: Crypto, s: State, seed: Bytes, password: Bytes, envs: seq<Env>)
    requires c.Ideal() && SeedInv(c, s) && s.pc == Ready && s.flash.salt.SaltRoot?
    requires |envs| == 5 && forall e | e in envs :: Obliging(e) && e.flashOk
    ensures
      var t := Proceed(c, Start(c, s, Store(seed, password)), envs, 0);
      t.pc == Ready && (t.reply == Reply(Fine, None) <==> ValidSeedLength(|seed|) && !s.flash.initialized)
  {
    var started := Start(c, s, Store(seed, password));
    StartKeepsSeed(c, s, Store(seed, password));
    if s.flash.initialized {
      IdleStays(c, started, envs, 0);
    } else if ValidSeedLength(|seed|) {
      StoreRuns(c, started, envs, 0, seed, password);
    } else {
      assert envs[0] in envs;
      IdleStays(c, Step(c, started, Next(envs[0])), envs, 1);
    }
  }

  /** A seed whose storing has answered OK survives any run without a further store or reset, power
      cuts and failures included. When the device is then idle with an attempt left, the password
      unlocks it in eight statements, whether or not it was unlocked already, and the seed can be
      copied out. */
  lemma StoreUnlockCopy(
    c: Crypto, s: State, seed: Bytes, password: Bytes, storing: seq<Env>, events: seq<Event>, envs: seq<Env>, later: Env)
    requires c.Ideal() && SeedInv(c, s) && AttemptsInv(s) && s.pc == Ready
    requires
      var stored := Proceed(c, Start(c, s, Store(seed, password)), storing, 0);
      && stored.pc == Ready && stored.reply == Reply(Fine, None) && Quiet(c, stored, events)
      && Run(c, stored, events).pc == Ready && Run(c, stored, events).attempts < MAX_UNLOCK_ATTEMPTS
    requires |envs| >= 8 && (forall e | e in envs :: Obliging(e)) && Obliging(later)
    ensures
      var stored := Proceed(c, Start(c, s, Store(seed, password)), storing, 0);
      var t := Proceed(c, Start(c, Run(c, stored, events), Unlock(password)), envs, 0);
      && t.pc == Ready && t.reply == Reply(Fine, Some(MAX_UNLOCK_ATTEMPTS)) && t.attempts == 0
      && CopySeed(c, t, later) == Some(seed)
  {
    var stored := Proceed(c, Start(c, s, Store(seed, password)), storing, 0);
    StoreAnswersFine(c, s, seed, password, storing);
    CallKeeps(c, s, Store(seed, password), storing);
    var idle := Run(c, stored, events);
    RunKeepsHolds(c, stored, events, seed, password);
    RunKeepsSeed(c, stored, events);
    var started := Start(c, idle, Unlock(password));
    StartKeepsSeed(c, idle, Unlock(password));
    UnlockRuns(c, started, envs, 0, seed, password);
    CopiesStoredSeed(c, Proceed(c, started, envs, 0), later);
  }

  // A wrong password does not unlock

  /** A locked device in an unlock call with a password that does not open the stored seed. */
  predicate Barred(c: Crypto, s: State, password: Bytes) {
    && !s.unlocked
    && (match s.pc
        case CheckAttempts(p) => p == password && !Opens(c, s, password)
        case Increment(p) => p == password && !Opens(c, s, password)
        case Evaluate(p) => p == password && !Opens(c, s, password)
        case Report(_) => true
        case Ready => true
        case Halted(_) => true
        case _ => Resetting(s.pc))
  }

  lemma UnlockStepBars(c: Crypto, s: State, env: Env, password: Bytes)
    requires Barred(c, s, password) && !Resetting(s.pc)
    requires s.pc.Evaluate? ==> !GetAndDecryptSeed(c, s, env, password).Seed?
    ensures Barred(c, UnlockStep(c, s, env), password)
  {
  }

  lemma StepBars(c: Crypto, s: State, env: Env, password: Bytes)
    requires c.Ideal() && SeedInv(c, s) && Barred(c, s, password)
    ensures Barred(c, Step(c, s, Next(env)), password)
  {
    if Resetting(s.pc) {
      StepStaysGone(c, s, env);
    } else {
      if s.pc.Evaluate? {
        RightPasswordOpens(c, s, env, password);
      }
      UnlockStepBars(c, s, env, password);
    }
  }

  lemma {:induction false} StaysBarred(c: Crypto, s: State, envs: seq<Env>, i: nat, password: Bytes)
    requires c.Ideal() && SeedInv(c, s) && Barred(c, s, password)
    ensures Barred(c, Proceed(c, s, envs, i), password)
    decreases |envs| - i
  {
    if i < |envs| {
      StepBars(c, s, envs[i], password);
      StepKeepsSeed(c, s, Next(envs[i]));
      StaysBarred(c, Step(c, s, Next(envs[i])), envs, i + 1, password);
    }
  }

  /** An unlock call on a locked device unlocks it only if the password opens the stored seed, whatever
      the hardware does. With an attempt left and obliging hardware it is if and only if. */
  lemma UnlocksExactly(c: Crypto, s: State, password: Bytes, envs: seq<Env>)
    requires c.Ideal() && SeedInv(c, s) && AttemptsInv(s) && s.pc == Ready && !s.unlocked
    ensures
      var t := Proceed(c, Start(c, s, Unlock(password)), envs, 0);
      && (t.unlocked ==> Opens(c, s, password))
      && (|envs| >= 8 && (forall e | e in envs :: Obliging(e)) && s.attempts < MAX_UNLOCK_ATTEMPTS ==>
          (t.unlocked <==> Opens(c, s, password)))
  {
    var started := Start(c, s, Unlock(password));
    StartKeepsSeed(c, s, Unlock(password));
    if !Opens(c, s, password) {
      StaysBarred(c, started, envs, 0, password);
    } else if |envs| >= 8 && (forall e | e in envs :: Obliging(e)) && s.attempts < MAX_UNLOCK_ATTEMPTS {
      UnlockRuns(c, started, envs, 0, s.flash.blob.seed, password);
    }
  }

  // Where the runs start, and that the assumptions about the cryptography can be met

  /** As it leaves the factory: no seed, a salt root, nothing retained. */
  function Factory(chip: nat, salt: Bytes): State {
    State(0, true, Flash(false, false, NoBlob, SaltRoot(salt)), chip, false, false, NothingRetained, Ready,
      Unanswered, 0)
  }

  lemma {:induction false} RunKeepsStore(c: Crypto, s: State, events: seq<Event>)
    requires StoreInv(s)
    ensures StoreInv(Run(c, s, events))
    decreases |events|
  {
    if events != [] {
      StepKeepsStore(c, s, events[0]);
      RunKeepsStore(c, Step(c, s, events[0]), events[1..]);
    }
  }

  /** A call that runs to its end is a run without power cuts. */
  lemma {:induction false} ProceedIsRun(c: Crypto, s: State, envs: seq<Env>, i: nat)
    requires i <= |envs|
    ensures Proceed(c, s, envs, i) == Run(c, s, seq(|envs| - i, k requires 0 <= k < |envs| - i => Next(envs[i + k])))
    decreases |envs| - i
  {
    if i < |envs| {
      var events := seq(|envs| - i, k requires 0 <= k < |envs| - i => Next(envs[i + k]));
      var rest := seq(|envs| - (i + 1), k requires 0 <= k < |envs| - (i + 1) => Next(envs[i + 1 + k]));
      assert events[1..] == rest;
      ProceedIsRun(c, Step(c, s, Next(envs[i])), envs, i + 1);
    }
  }

  /** Both ciphertexts fit the buffers they are kept in. */
  predicate Fits(s: State) {
    && (s.flash.blob.Blob? ==> |s.flash.blob.bytes| <= SEED_FIELD_LEN)
    && (s.unlocked ==> |s.retained.bytes| <= SEED_FIELD_LEN)
  }

  lemma SeedFits(c: Crypto, s: State)
    requires c.Ideal() && SeedInv(c, s)
    ensures Fits(s)
  {
    if s.flash.blob.Blob? {
      var b := s.flash.blob;
      var k := c.stretchPassword(b.chip, b.salt, b.password);
      OpensWithItsKeyOnly(c, k, k, b.iv, b.seed);
    }
    if s.unlocked {
      var k := c.stretchKey(s.chip, s.flash.salt.bytes, s.retained.key);
      OpensWithItsKeyOnly(c, k, k, s.retained.iv, s.flash.blob.seed);
    }
  }

  /** All of this holds in every state a device from the factory can get into. */
  lemma EveryReachableState(c: Crypto, chip: nat, salt: Bytes, events: seq<Event>)
    requires c.Ideal()
    ensures
      var s := Run(c, Factory(chip, salt), events);
      AttemptsInv(s) && SeedInv(c, s) && StoreInv(s) && Fits(s)
  {
    RunKeepsAttempts(c, Factory(chip, salt), events);
    RunKeepsSeed(c, Factory(chip, salt), events);
    RunKeepsStore(c, Factory(chip, salt), events);
    SeedFits(c, Run(c, Factory(chip, salt), events));
  }

  /** A call from a good idle state that is not cut short ends in a good state. */
  lemma CallKeeps(c: Crypto, s: State, call: Call, envs: seq<Env>)
    requires c.Ideal() && AttemptsInv(s) && SeedInv(c, s) && StoreInv(s) && s.pc == Ready
    ensures
      var t := Proceed(c, Start(c, s, call), envs, 0);
      AttemptsInv(t) && SeedInv(c, t) && StoreInv(t) && Fits(t)
  {
    var started := Start(c, s, call);
    assert started == Step(c, s, Begin(call));
    StepKeepsAttempts(c, s, Begin(call));
    StepKeepsSeed(c, s, Begin(call));
    StepKeepsStore(c, s, Begin(call));
    ProceedIsRun(c, started, envs, 0);
    var events := seq(|envs|, k requires 0 <= k < |envs| => Next(envs[k]));
    assert events == seq(|envs| - 0, k requires 0 <= k < |envs| - 0 => Next(envs[0 + k]));
    RunKeepsAttempts(c, started, events);
    RunKeepsSeed(c, started, events);
    RunKeepsStore(c, started, events);
    SeedFits(c, Run(c, started, events));
  }

  ghost function EncryptWith(p: Cipher.Primitives, k: Bytes, iv: Bytes, m: Bytes): Bytes
    requires p.Sound()
  {
    if |iv| != 16 then []
    else
      match Cipher.Encrypt(p, k, iv, m, |m| + 64)
      case None => []
      case Some(blob) => blob
  }

  ghost function DecryptWith(p: Cipher.Primitives, k: Bytes, blob: Bytes): Option<Bytes>
    requires p.Sound()
  {
    if |blob| < 64 || |blob| % 16 != 0 then None else Cipher.Decrypt(p, k, blob, |blob| - 48, [])
  }

  lemma CipherOpensWithItsKeyOnly(p: Cipher.Primitives, k: Bytes, l: Bytes, iv: Bytes, m: Bytes)
    requires p.Sound() && p.Authentic() && |k| == |l| == 32 && |iv| == 16 && |m| <= 175
    ensures |EncryptWith(p, k, iv, m)| == 16 * (|m| / 16) + 64
    ensures DecryptWith(p, l, EncryptWith(p, k, iv, m)) == if k == l then Some(m) else None
  {
    Cipher.RoundTrip(p, k, iv, m);
    if k != l {
      Cipher.WrongSecret(p, k, iv, m, l, |EncryptWith(p, k, iv, m)| - 48);
    }
  }

  /** The cipher, with any two ways to stretch a secret, is cryptography as the theorems assume it. */
  lemma CipherIsIdeal(p: Cipher.Primitives, c: Crypto)
    requires p.Sound() && p.Authentic()
    requires forall k, iv, m :: c.enc(k, iv, m) == EncryptWith(p, k, iv, m)
    requires forall k, blob :: c.dec(k, blob) == DecryptWith(p, k, blob)
    requires forall chip, salt, x :: |c.stretchPassword(chip, salt, x)| == 32
    requires forall chip, salt, x :: |c.stretchKey(chip, salt, x)| == 32
    ensures c.Ideal()
  {
    forall k: Bytes, iv: Bytes, m: Bytes | |k| == 32 && |iv| == 16 && |m| <= 175
      ensures c.dec(k, c.enc(k, iv, m)) == Some(m) && |c.enc(k, iv, m)| == 16 * (|m| / 16) + 64
    {
      CipherOpensWithItsKeyOnly(p, k, k, iv, m);
    }
    forall k: Bytes, l: Bytes, iv: Bytes, m: Bytes | |k| == 32 && |l| == 32 && k != l && |iv| == 16 && |m| <= 175
      ensures c.dec(l, c.enc(k, iv, m)) == None
    {
      CipherOpensWithItsKeyOnly(p, k, l, iv, m);
    }
  }

  lemma IdealExists() returns (c: Crypto)
    ensures c.Ideal()
  {
    var p := Cipher.AssumptionsAreMet();
    c := Crypto(
      (k, iv, m) => EncryptWith(p, k, iv, m),
      (k, blob) => DecryptWith(p, k, blob),
      (chip, salt, x) => Zeros(32),
      (chip, salt, x) => Zeros(32));
    CipherIsIdeal(p, c);
  }
}

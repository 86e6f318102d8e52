/**
 The master-key lifecycle (master_key.rs): a key sealed in a file under a recovery phrase, and
 the same key as a persistent TPM object. Sealing is ideal authenticated encryption, HMAC is any function.
 */
module MasterKey {
  import opened Wrappers
  import opened PinCodec
  import opened PinErrors
  import opened Text
  import opened Tpm

  type KeyBytes = seq<u8>

  const HMAC_KEY_LEN := 32

  /** `MaxBuffer` holds at most this many bytes. */
  const MAX_BUFFER := 1024

  /** A file that opens under one phrase only, or one that does not decode. */
  datatype SealedFile = Intact(phrase: string, key: KeyBytes) | Damaged

  /** The three things the lifecycle keeps in step. */
  datatype Secrets = Secrets(rsa: bool, hmac: Option<KeyBytes>, file: Option<SealedFile>)

  /** The file and the TPM do not hold different keys. */
  predicate InStep(s: Secrets) {
    s.hmac.Some? && s.file.Some? && s.file.value.Intact? ==> s.file.value.key == s.hmac.value
  }

  /** This key is sealed on disk under this phrase, and the TPM holds it or none. */
  predicate Guards(s: Secrets, phrase: string, key: KeyBytes) {
    s.file == Some(Intact(phrase, key)) && (s.hmac.None? || s.hmac == Some(key))
  }

  /** The sealed file opens to its key under this phrase. */
  predicate Opens(file: Option<SealedFile>, phrase: string) {
    file.Some? && file.value.Intact? && file.value.phrase == phrase
  }

  datatype Status = Status(sealedFilePresent: bool, rsaParentPresent: bool, hmacKeyPresent: bool)

  class Vault {
    const fates: nat -> Fate              // of each TPM command and file operation, by turn
    const evictions: nat -> Fate          // of the evictions among them
    const sees: nat -> bool               // whether an existence check finds a file that is there
    const mac: (KeyBytes, string) -> string
    var rsa: bool
    var hmac: Option<KeyBytes>
    var file: Option<SealedFile>
    var clock: nat

    function State(): Secrets
      reads this
    {
      Secrets(rsa, hmac, file)
    }

    ghost predicate CommandsWork()
      reads this
    {
      forall n | n >= clock :: fates(n).Works?
    }

    ghost predicate AllWork()
      reads this
    {
      CommandsWork() && forall n | n >= clock :: evictions(n).Works? && sees(n)
    }

    /** The last three commands were those of a status that could be read: the connection, and two looks at handles. */
    ghost predicate StatusWasRead()
      reads this
    {
      && clock >= 3 && fates(clock - 3).Works?
      && (fates(clock - 2).Works? || fates(clock - 2).kind.Handle?)
      && (fates(clock - 1).Works? || fates(clock - 1).kind.Handle?)
    }

    ghost predicate ChecksAreTruthful() {
      forall n :: sees(n)
    }

    // ---- Single steps ----

    /** A step without lasting effect: a connection, a transient object, a directory. */
    method Attempt() returns (r: Result<(), PinError>)
      modifies this`clock
      ensures clock == old(clock) + 1
      ensures var fate := old(fates(clock)); r == if fate.Works? then Ok(()) else Err(TpmError(Rc(fate.kind)))
    {
      r := if fates(clock).Works? then Ok(()) else Err(TpmError(Rc(fates(clock).kind)));
      clock := clock + 1;
    }

    /** `persistent_present`: a handle error reads as absent, any other error is one. */
    method PersistentPresent(present: bool) returns (r: Result<bool, PinError>)
      modifies this`clock
      ensures clock == old(clock) + 1
      ensures old(fates(clock)).Works? ==> r == Ok(present)
      ensures r == Ok(true) ==> present
      ensures var fate := old(fates(clock));
              !fate.Works? ==> r == if fate.kind.Handle? then Ok(false) else Err(TpmError(Rc(fate.kind)))
    {
      match fates(clock) {
        case Works => r := Ok(present);
        case Dropped(kind) => r := if kind.Handle? then Ok(false) else Err(TpmError(Rc(kind)));
        case Lost(kind) => r := if kind.Handle? then Ok(false) else Err(TpmError(Rc(kind)));
      }
      clock := clock + 1;
    }

    /** Make the RSA parent persistent; an occupied handle is refused. */
    method PersistRsa() returns (r: Result<(), PinError>)
      modifies this`clock, this`rsa
      ensures clock == old(clock) + 1
      ensures old(rsa) ==> rsa
      ensures r.Ok? ==> rsa
      ensures old(fates(clock)).Works? && !old(rsa) ==> r == Ok(())
    {
      var fate := fates(clock);
      r := if fate.Works? && !rsa then Ok(()) else Err(TpmError(Rc(OtherRc)));
      rsa := rsa || !fate.Dropped?;
      clock := clock + 1;
    }

    /** Make the HMAC key persistent under the RSA parent; an occupied handle is refused. */
    method PersistHmac(key: KeyBytes) returns (r: Result<(), PinError>)
      modifies this`clock, this`hmac
      ensures clock == old(clock) + 1
      ensures hmac == old(hmac) || (old(hmac).None? && hmac == Some(key))
      ensures r.Ok? ==> old(hmac).None? && hmac == Some(key)
      ensures old(fates(clock)).Works? && old(hmac).None? ==> r == Ok(())
    {
      var fate := fates(clock);
      r := if fate.Works? && hmac.None? then Ok(()) else Err(TpmError(Rc(OtherRc)));
      hmac := if hmac.None? && !fate.Dropped? then Some(key) else hmac;
      clock := clock + 1;
    }

    method EvictHmac() returns (r: Result<(), PinError>)
      modifies this`clock, this`hmac
      ensures clock == old(clock) + 1
      ensures hmac == if old(evictions(clock)).Dropped? then old(hmac) else None
    {
      var fate := evictions(clock);
      r := if fate.Works? then Ok(()) else Err(TpmError(Rc(OtherRc)));
      hmac := if fate.Dropped? then hmac else None;
      clock := clock + 1;
    }

    method EvictRsa() returns (r: Result<(), PinError>)
      modifies this`clock, this`rsa
      ensures clock == old(clock) + 1
      ensures rsa ==> old(rsa)
      ensures old(evictions(clock)).Works? ==> !rsa
    {
      var fate := evictions(clock);
      r := if fate.Works? then Ok(()) else Err(TpmError(Rc(OtherRc)));
      rsa := rsa && fate.Dropped?;
      clock := clock + 1;
    }

    /** `Path::exists`: an error reads as absent. */
    method FileExists() returns (found: bool)
      modifies this`clock
      ensures clock == old(clock) + 1
      ensures found == (file.Some? && old(sees(clock)))
    {
      found := file.Some? && sees(clock);
      clock := clock + 1;
    }

    // ---- Provisioning and clearing the TPM ----

    method CreateAndPersistRsaParent() returns (r: Result<(), PinError>)
      modifies this`clock, this`rsa
      ensures clock >= old(clock)
      ensures old(rsa) ==> rsa
      ensures r.Ok? ==> rsa
      ensures old(CommandsWork()) && !old(rsa) ==> r == Ok(())
    {
      r := Attempt();
      if r.Ok? {
        r := PersistRsa();
      }
    }

    method CreateAndPersistHmacKey(key: KeyBytes) returns (r: Result<(), PinError>)
      modifies this`clock, this`hmac
      ensures clock >= old(clock)
      ensures hmac == old(hmac) || (old(hmac).None? && hmac == Some(key))
      ensures r.Ok? ==> rsa && old(hmac).None? && hmac == Some(key)
      ensures old(CommandsWork() && rsa && hmac.None?) ==> r == Ok(())
    {
      // The parent must be there; create and load only make transient objects.
      var parent := PersistentPresent(rsa);
      if parent.Err? || !parent.value {
        return Err(TpmError(Rc(Handle)));
      }
      r := Attempt();
      if r.Ok? {
        r := Attempt();
        if r.Ok? {
          r := PersistHmac(key);
        }
      }
    }

    method ProvisionTpmObjects(key: KeyBytes) returns (r: Result<(), PinError>)
      modifies this`clock, this`rsa, this`hmac
      ensures clock >= old(clock)
      ensures hmac == old(hmac) || (old(hmac).None? && hmac == Some(key))
      ensures r.Ok? ==> old(hmac).None? && hmac == Some(key) && rsa
      ensures old(CommandsWork()) ==> r == if old(hmac).None? then Ok(()) else Err(TpmError(Rc(OtherRc)))
      ensures old(rsa) ==> rsa
    {
      r := Attempt();
      if r.Err? {
        return;
      }
      var parent := PersistentPresent(rsa);
      if parent.Err? {
        return Err(parent.error);
      }
      if !parent.value {
        r := CreateAndPersistRsaParent();
        if r.Err? {
          return;
        }
      }
      var present := PersistentPresent(hmac.Some?);
      if present.Err? {
        return Err(present.error);
      }
      if present.value {
        return Err(TpmError(Rc(OtherRc)));
      }
      r := CreateAndPersistHmacKey(key);
    }

    /** Evict the HMAC key, then its parent; what cannot be evicted stays, unreported. */
    method ClearFromTpm(root: bool) returns (r: Result<(), PinError>)
      modifies this`clock, this`rsa, this`hmac
      ensures clock >= old(clock)
      ensures hmac == old(hmac) || hmac.None?
      ensures rsa ==> old(rsa)
      ensures !root ==> r == Err(PermissionDenied) && State() == old(State())
      ensures root && !old(fates(clock)).Works? ==> r.Err? && State() == old(State())
      ensures root && old(AllWork()) ==> r == Ok(()) && !rsa && hmac.None?
      ensures (forall n :: evictions(n).Dropped?) ==> hmac == old(hmac)
      ensures root && old(CommandsWork()) && (forall n :: !evictions(n).Dropped?) ==> hmac.None?
    {
      if !root {
        return Err(PermissionDenied);
      }
      r := Attempt();
      if r.Err? {
        return;
      }
      var present := PersistentPresent(hmac.Some?);
      if present.Ok? && present.value {
        var loaded := Attempt();
        if loaded.Ok? {
          var _ := EvictHmac();
        }
      }
      present := PersistentPresent(rsa);
      if present.Ok? && present.value {
        var loaded := Attempt();
        if loaded.Ok? {
          var _ := EvictRsa();
        }
      }
      r := Ok(());
    }

    // ---- The sealed file ----

    /** Create the file, write the sealed key, end the line. A file that exists is never touched. */
    method SealKeyBytes(key: KeyBytes, phrase: string) returns (r: Result<(), PinError>)
      modifies this`clock, this`file
      ensures clock >= old(clock)
      ensures old(file).Some? ==> r.Err? && file == old(file)
      ensures file.None? || file == old(file) || file == Some(Damaged) || file == Some(Intact(phrase, key))
      ensures r.Ok? ==> file == Some(Intact(phrase, key))
      ensures old(AllWork() && file.None?) ==> r == Ok(())
    {
      r := Attempt();                                  // directory, key derivation, encryption
      if r.Err? {
        return;
      }
      var fate := fates(clock);
      clock := clock + 1;
      if file.Some? {
        return Err(IoError);
      }
      file := if fate.Dropped? then None else Some(Damaged);
      if !fate.Works? {
        return Err(IoError);
      }
      fate := fates(clock);
      clock := clock + 1;
      file := if fate.Dropped? then file else Some(Intact(phrase, key));
      if !fate.Works? {
        return Err(IoError);
      }
      r := Attempt();                                  // the final newline; the file decodes without it
    }

    method UnsealKeyBytes(phrase: string) returns (r: Result<KeyBytes, PinError>)
      modifies this`clock
      ensures clock >= old(clock)
      ensures r.Ok? ==> file == Some(Intact(phrase, r.value))
      ensures old(AllWork()) && file.Some? && file.value.Intact? && file.value.phrase == phrase ==>
                r == Ok(file.value.key)
      ensures !(file.Some? && file.value.Intact? && file.value.phrase == phrase) ==> r == Err(IoError)
    {
      var read := Attempt();
      if read.Err? {
        return Err(IoError);
      }
      if file.Some? && file.value.Intact? && file.value.phrase == phrase {
        return Ok(file.value.key);
      }
      r := Err(IoError);
    }

    // ---- The operations ----

    method GetStatus() returns (r: Result<Status, PinError>)
      modifies this`clock
      ensures clock >= old(clock)
      ensures r.Ok? ==> (r.value.sealedFilePresent ==> file.Some?) && (r.value.rsaParentPresent ==> rsa)
                        && (r.value.hmacKeyPresent ==> hmac.Some?)
      ensures old(AllWork()) ==> r == Ok(Status(file.Some?, rsa, hmac.Some?))
      ensures r.Ok? ==> StatusWasRead()
    {
      var found := FileExists();
      var connected := Attempt();
      if connected.Err? {
        return Err(connected.error);
      }
      var parent := PersistentPresent(rsa);
      if parent.Err? {
        return Err(parent.error);
      }
      var present := PersistentPresent(hmac.Some?);
      if present.Err? {
        return Err(present.error);
      }
      r := Ok(Status(found, parent.value, present.value));
    }

    /** `init`, with the random key and phrase it draws. */
    method Init(root: bool, key: KeyBytes, phrase: string) returns (r: Result<string, PinError>)
      requires |key| == HMAC_KEY_LEN
      modifies this`clock, this`rsa, this`hmac, this`file
      ensures clock >= old(clock)
      ensures ChecksAreTruthful() ==> InitMayLeave(old(State()), State(), key, phrase)
      ensures !root ==> r == Err(PermissionDenied) && State() == old(State())
      ensures r.Ok? ==> r.value == phrase && old(hmac).None? && StatusWasRead()
      ensures r.Ok? ==> State() == Secrets(true, Some(key), Some(Intact(phrase, key)))
      ensures old(file).Some? ==> file == old(file)
      ensures root && old(AllWork()) ==>
                if old(file).Some? then r == Err(IoError) && State() == old(State())
                else if old(hmac).Some? then
                  r == Err(TpmError(Rc(OtherRc))) && hmac == old(hmac) && file.None?
                else r == Ok(phrase)
      // The one way to get out of step: the check overlooks an existing file, and the new key stays in the TPM.
      ensures old(InStep(State())) && !InStep(State()) ==>
                old(file.Some? && hmac.None? && !sees(clock)) && hmac == Some(key)
      // And only if the rollback fails as well.
      ensures old(CommandsWork() && InStep(State())) && (forall n :: !evictions(n).Dropped?) ==> InStep(State())
      ensures root && old(CommandsWork() && file.Some? && hmac.None? && !sees(clock))
              && (forall n :: evictions(n).Dropped?) ==>
                r.Err? && hmac == Some(key) && file == old(file)
    {
      if !root {
        return Err(PermissionDenied);
      }
      var found := FileExists();
      if found {
        return Err(IoError);
      }
      var drawn := Attempt();
      if drawn.Err? {
        return Err(IoError);
      }
      var provisioned := ProvisionTpmObjects(key);
      if provisioned.Err? {
        return Err(provisioned.error);
      }
      var _ := Attempt();                              // directory permissions, best effort
      var stored := SealKeyBytes(key, phrase);
      if stored.Err? {
        var _ := ClearFromTpm(root);
        return Err(stored.error);
      }
      var status := GetStatus();
      r := if status.Err? then Err(status.error) else Ok(phrase);
    }

    /** `import_to_tpm`. */
    method ImportToTpm(root: bool, phrase: string) returns (r: Result<Status, PinError>)
      modifies this`clock, this`rsa, this`hmac
      ensures clock >= old(clock)
      ensures !root ==> r == Err(PermissionDenied) && State() == old(State())
      ensures ImportMayLeave(old(State()), State(), phrase) && (old(rsa) ==> rsa)
      ensures r.Ok? ==> file.Some? && file.value.Intact? && file.value.phrase == phrase && hmac == Some(file.value.key)
                        && StatusWasRead()
      ensures root && old(AllWork()) ==>
                if old(rsa || hmac.Some?) then r == Err(TpmError(Rc(OtherRc))) && State() == old(State())
                else if Opens(file, phrase) && |file.value.key| == 32 then
                  r == Ok(Status(true, true, true)) && State() == Secrets(true, Some(file.value.key), old(file))
                else r == Err(IoError) && State() == old(State())
    {
      if !root {
        return Err(PermissionDenied);
      }
      var current := GetStatus();
      if current.Err? {
        return current;
      }
      if current.value.rsaParentPresent || current.value.hmacKeyPresent {
        return Err(TpmError(Rc(OtherRc)));
      }
      if !current.value.sealedFilePresent {
        return Err(IoError);
      }
      var key := UnsealKeyBytes(phrase);
      if key.Err? {
        return Err(key.error);
      }
      if |key.value| != HMAC_KEY_LEN {
        return Err(IoError);
      }
      var provisioned := ProvisionTpmObjects(key.value);
      if provisioned.Err? {
        return Err(provisioned.error);
      }
      r := GetStatus();
    }

    /** `clear_from_disk`: a file that is already gone is fine. */
    method ClearFromDisk(root: bool) returns (r: Result<(), PinError>)
      modifies this`clock, this`file
      ensures clock >= old(clock)
      ensures file == old(file) || file.None?
      ensures !root ==> r == Err(PermissionDenied) && State() == old(State())
      ensures root && r.Ok? ==> file.None?
      ensures root && old(AllWork()) ==> r.Ok?
    {
      if !root {
        return Err(PermissionDenied);
      }
      var fate := fates(clock);
      clock := clock + 1;
      file := if fate.Dropped? then file else None;
      r := if fate.Works? then Ok(()) else Err(IoError);
    }

    /** `derive_user_token`. */
    method DeriveUserToken(username: string) returns (r: Result<string, PinError>)
      modifies this`clock
      ensures clock >= old(clock)
      ensures r.Ok? ==> hmac.Some? && r.value == mac(hmac.value, username)
      ensures ByteLen(username) > MAX_BUFFER ==> r.Err?
      ensures old(AllWork()) && hmac.None? ==> r == Err(TpmError(Rc(Handle)))
      ensures old(AllWork()) && hmac.Some? ==>
                r == if ByteLen(username) > MAX_BUFFER then Err(TpmError(Wrapper)) else Ok(mac(hmac.value, username))
    {
      var connected := Attempt();
      if connected.Err? {
        return Err(connected.error);
      }
      var loaded := PersistentPresent(hmac.Some?);
      if loaded.Err? || !loaded.value {
        return Err(TpmError(Rc(Handle)));
      }
      if ByteLen(username) > MAX_BUFFER {
        return Err(TpmError(Wrapper));
      }
      var digest := Attempt();
      if digest.Err? {
        return Err(digest.error);
      }
      r := Ok(mac(hmac.value, username));
    }
  }

  // ---- What each operation may leave behind, whatever fails ----

  /**
   A file in the way stops `init`; without one, the TPM gains this key or none, and the file seals this key or none.
   */
  predicate InitMayLeave(s: Secrets, s': Secrets, key: KeyBytes, phrase: string) {
    if s.file.Some? then s' == s
    else
      && (s'.hmac == s.hmac || (s.hmac.None? && s'.hmac == Some(key)))
      && (s'.file.None? || (s.hmac.None? && (s'.file == Some(Damaged) || s'.file == Some(Intact(phrase, key)))))
  }

  /** The file stays; the TPM gains the key it seals under this phrase, or nothing. */
  predicate ImportMayLeave(s: Secrets, s': Secrets, phrase: string) {
    && s'.file == s.file
    && (s'.hmac == s.hmac ||
        (s.hmac.None? && s.file.Some? && s.file.value.Intact? && s.file.value.phrase == phrase
            && s'.hmac == Some(s.file.value.key)))
    && (s.file.None? || s.file.value.Damaged? || s.file.value.phrase != phrase ==> s' == s)
  }

  datatype Operation =
    | InitOp(key: KeyBytes, phrase: string)
    | ImportOp(phrase: string)
    | ClearTpmOp
    | ClearDiskOp
    | TokenOp(username: string)

  predicate MayLeave(op: Operation, s: Secrets, s': Secrets) {
    match op
    case InitOp(key, phrase) => InitMayLeave(s, s', key, phrase)
    case ImportOp(phrase) => ImportMayLeave(s, s', phrase)
    case ClearTpmOp => s'.file == s.file && (s'.hmac == s.hmac || s'.hmac.None?)
    case ClearDiskOp => s'.hmac == s.hmac && (s'.file == s.file || s'.file.None?)
    case TokenOp(_) => s' == s
  }

  ghost predicate IsRun(states: seq<Secrets>, ops: seq<Operation>) {
    |states| == |ops| + 1 && forall k | 0 <= k < |ops| :: MayLeave(ops[k], states[k], states[k + 1])
  }

  /** The file and the TPM stay in step over every run, wherever its operations fail or stop. */
  lemma {:induction false} SecretsStayInStep(states: seq<Secrets>, ops: seq<Operation>, n: nat)
    requires IsRun(states, ops) && InStep(states[0]) && n <= |ops|
    ensures InStep(states[n])
  {
    if n > 0 {
      SecretsStayInStep(states, ops, n - 1);
      assert MayLeave(ops[n - 1], states[n - 1], states[n]);
    }
  }

  /** Until the file is cleared from disk, the TPM never holds any key but the one it seals. */
  lemma {:induction false} SealedKeyIsKept(states: seq<Secrets>, ops: seq<Operation>, n: nat, phrase: string,
                                           key: KeyBytes)
    requires IsRun(states, ops) && Guards(states[0], phrase, key) && n <= |ops|
    requires forall k | 0 <= k < n :: !ops[k].ClearDiskOp?
    ensures Guards(states[n], phrase, key)
  {
    if n > 0 {
      SealedKeyIsKept(states, ops, n - 1, phrase, key);
      assert MayLeave(ops[n - 1], states[n - 1], states[n]);
    }
  }

  // ---- Runs ----

  /** One operation, by root. A token is returned only by `TokenOp`. */
  method Operate(v: Vault, op: Operation) returns (token: Option<string>)
    requires op.InitOp? ==> |op.key| == HMAC_KEY_LEN
    modifies v
    ensures v.ChecksAreTruthful() ==> MayLeave(op, old(v.State()), v.State())
    ensures token.Some? ==> op.TokenOp? && v.hmac.Some? && token.value == v.mac(v.hmac.value, op.username)
  {
    token := None;
    match op {
      case InitOp(key, phrase) => var _ := v.Init(true, key, phrase);
      case ImportOp(phrase) => var _ := v.ImportToTpm(true, phrase);
      case ClearTpmOp => var _ := v.ClearFromTpm(true);
      case ClearDiskOp => var _ := v.ClearFromDisk(true);
      case TokenOp(username) =>
        var r := v.DeriveUserToken(username);
        token := if r.Ok? then Some(r.value) else None;
    }
  }

  predicate KeepsFile(ops: seq<Operation>) {
    forall k | 0 <= k < |ops| :: !ops[k].ClearDiskOp?
  }

  /** Every token handed out by these operations is the one this key gives that user. */
  predicate TokensComeFrom(v: Vault, key: KeyBytes, ops: seq<Operation>, tokens: seq<Option<string>>)
    requires |tokens| == |ops|
  {
    forall k | 0 <= k < |ops| && tokens[k].Some? :: ops[k].TokenOp? && tokens[k].value == v.mac(key, ops[k].username)
  }

  /**
   Any sequence of operations, failing and stopping anywhere, as long as existence checks are truthful: the file and the
   TPM stay in step, and a key that was sealed at the start yields the same tokens for as long as its file is not
   cleared.
   */
  method RunOperations(v: Vault, ops: seq<Operation>, ghost phrase: string, ghost key: KeyBytes)
    returns (tokens: seq<Option<string>>, ghost states: seq<Secrets>)
    requires v.ChecksAreTruthful() && InStep(v.State())
    requires forall k | 0 <= k < |ops| && ops[k].InitOp? :: |ops[k].key| == HMAC_KEY_LEN
    modifies v
    ensures IsRun(states, ops) && |tokens| == |ops| && states[0] == old(v.State()) && states[|ops|] == v.State()
    ensures InStep(v.State())
    ensures old(Guards(v.State(), phrase, key)) && KeepsFile(ops) ==> TokensComeFrom(v, key, ops, tokens)
  {
    tokens, states := [], [v.State()];
    while |tokens| < |ops|
      invariant |tokens| <= |ops| && |states| == |tokens| + 1
      invariant states[0] == old(v.State()) && states[|tokens|] == v.State()
      invariant forall k | 0 <= k < |tokens| :: MayLeave(ops[k], states[k], states[k + 1])
      invariant forall k | 0 <= k < |tokens| && tokens[k].Some? ::
                  ops[k].TokenOp? && states[k + 1].hmac.Some?
                      && tokens[k].value == v.mac(states[k + 1].hmac.value, ops[k].username)
    {
      var token := Operate(v, ops[|tokens|]);
      tokens, states := tokens + [token], states + [v.State()];
    }
    SecretsStayInStep(states, ops, |ops|);
    if Guards(states[0], phrase, key) && KeepsFile(ops) {
      forall n | 0 < n < |states|
        ensures Guards(states[n], phrase, key)
      {
        SealedKeyIsKept(states, ops, n, phrase, key);
      }
    }
  }

  /**
   Recovery: clearing the TPM and importing with the phrase gives every user the token they had, or the refusal of a
   name too long for the TPM.
   */
  method Recover(v: Vault, phrase: string, ghost key: KeyBytes, username: string)
    returns (token: Result<string, PinError>)
    requires Guards(v.State(), phrase, key) && |key| == HMAC_KEY_LEN && v.AllWork()
    modifies v
    ensures token == if ByteLen(username) > MAX_BUFFER then Err(TpmError(Wrapper)) else Ok(v.mac(key, username))
    ensures v.hmac == Some(key) && v.file == old(v.file)
  {
    var _ := v.ClearFromTpm(true);
    var _ := v.ImportToTpm(true, phrase);
    token := v.DeriveUserToken(username);
  }
}

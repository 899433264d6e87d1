/** The lifecycle coordinator shared by the OTP and the cosign policy tools:
    the persisted `State` record, its initial value, `create_command` and
    `roll_forward`. The two tools differ only in their session names, their
    account name and where the session templates come from. */
module Policies {
  import opened Results
  import opened SconeCli
  import opened PolicyFiles

  // ---------------------------------------------------------------------------
  // The persisted record
  // ---------------------------------------------------------------------------

  const U64Limit := 0x1_0000_0000_0000_0000

  /** A Rust `u64`. */
  newtype u64 = x: int | 0 <= x < U64Limit

  /** `+= 1` on a `u64` in a release build: it wraps at 2^64. Whatever the
      version, the result differs from it. */
  function Increment(v: u64): (r: u64)
    ensures r != v
    ensures v as int < U64Limit - 1 ==> r as int == v as int + 1
  {
    ((v as int + 1) % U64Limit) as u64
  }

  /** The record persisted in `state.js`, field by field. */
  datatype State = State(
    namespace: string,         // randomly chosen namespace name
    namespace_hash: string,    // last known hash of the namespace session
    session: string,           // primary session name, inside the namespace
    session_hash: string,      // last known hash of the primary session
    session_version: u64,      // volume version the primary session was last created for
    session2: string,          // secondary session name
    session_hash2: string,     // last known hash of the secondary session
    mrenclave: string,         // measurement of the QR code generator
    session_version2: u64,     // volume version the secondary session was last created for
    volume_version: u64,       // raised to roll the secret
    otp_image: string,         // image holding the QR code generator
    otp_binary: string,        // the generator's path inside that image
    scone_user: string,
    scone_account: string,     // account name shown by the authenticator
    secret: string)            // base32 OTP secret

  /** The two tools built on the coordinator. The OTP tool has its templates
      built in; the cosign tool reads them from the policy set `prefix`. */
  datatype Variant = Otp(templates: Templates) | Cosign(prefix: string)

  function SessionSuffix(v: Variant): string
  {
    if v.Otp? then "/otpqr-x" else "/cosign"
  }

  function ResetSuffix(v: Variant): string
  {
    if v.Otp? then "/otpqr-reset" else "/cosign-reset"
  }

  function Account(v: Variant): string
  {
    if v.Otp? then "SCONE OTP" else "SCONE cosign"
  }

  /** `State::new`: a record for a fresh namespace `ns`, created by `user`
      with the OTP secret `secret`. Nothing is known about the remote store
      yet and no version has been rolled. */
  function NewState(v: Variant, ns: string, user: string, secret: string): (s: State)
    ensures s.namespace == ns && s.scone_user == user && s.secret == secret
    ensures |s.namespace_hash| == 0 && |s.session_hash| == 0 && |s.session_hash2| == 0 && |s.mrenclave| == 0
    ensures s.session_version == 0 && s.session_version2 == 0 && s.volume_version == 0
    // the three sessions have pairwise different names, the two inside the namespace
    ensures s.namespace != s.session && s.namespace != s.session2 && s.session != s.session2
    ensures |s.session| > |ns| + 1 && |s.session2| > |ns| + 1
    ensures s.session[..|ns| + 1] == s.session2[..|ns| + 1] == ns + "/"
  {
    State(namespace := ns, namespace_hash := "",
          session := ns + SessionSuffix(v), session_hash := "", session_version := 0,
          session2 := ns + ResetSuffix(v), session_hash2 := "",
          mrenclave := "", session_version2 := 0, volume_version := 0,
          otp_image := "otpqr:scone", otp_binary := "/bin/otpqr",
          scone_user := user, scone_account := Account(v), secret := secret)
  }

  // ---------------------------------------------------------------------------
  // The JSON proxy of the record
  // ---------------------------------------------------------------------------

  const NamespaceHashField := "namespace_hash"
  const MrenclaveField := "mrenclave"
  const ImageField := "otp_image"
  const BinaryField := "otp_binary"

  /** Serialization: one binding per field, under the field's name. */
  function Encode(s: State): Bindings
  {
    map["namespace" := Str(s.namespace), NamespaceHashField := Str(s.namespace_hash),
        "session" := Str(s.session), "session_hash" := Str(s.session_hash),
        "session_version" := Num(s.session_version as int),
        "session2" := Str(s.session2), "session_hash2" := Str(s.session_hash2),
        MrenclaveField := Str(s.mrenclave),
        "session_version2" := Num(s.session_version2 as int),
        "volume_version" := Num(s.volume_version as int),
        ImageField := Str(s.otp_image), BinaryField := Str(s.otp_binary),
        "scone_user" := Str(s.scone_user), "scone_account" := Str(s.scone_account),
        "secret" := Str(s.secret)]
  }

  /** A string field of a JSON object, if it is there and is a string. */
  function Text(b: Bindings, key: string): Option<string>
  {
    if key in b && b[key].Str? then Some(b[key].s) else None
  }

  /** A `u64` field of a JSON object, if it is there and in range. */
  function Word(b: Bindings, key: string): Option<u64>
  {
    if key in b && b[key].Num? && 0 <= b[key].n < U64Limit then Some(b[key].n as u64) else None
  }

  /** Deserialization: every field must be present with the right type;
      other bindings are ignored. */
  function Decode(b: Bindings): Option<State>
  {
    var ns, nsh, se, seh, sev := Text(b, "namespace"), Text(b, NamespaceHashField), Text(b, "session"),
                                 Text(b, "session_hash"), Word(b, "session_version");
    var se2, seh2, mre, sev2, vol := Text(b, "session2"), Text(b, "session_hash2"), Text(b, MrenclaveField),
                                     Word(b, "session_version2"), Word(b, "volume_version");
    var img, bin, usr, acc, sec := Text(b, ImageField), Text(b, BinaryField), Text(b, "scone_user"),
                                   Text(b, "scone_account"), Text(b, "secret");
    if ns.Some? && nsh.Some? && se.Some? && seh.Some? && sev.Some? && se2.Some? && seh2.Some? &&
       mre.Some? && sev2.Some? && vol.Some? && img.Some? && bin.Some? && usr.Some? && acc.Some? && sec.Some?
    then Some(State(ns.value, nsh.value, se.value, seh.value, sev.value, se2.value, seh2.value,
                    mre.value, sev2.value, vol.value, img.value, bin.value, usr.value, acc.value, sec.value))
    else None
  }

  /** Serialization round-trips. */
  lemma DecodeEncode(s: State)
    ensures Decode(Encode(s)) == Some(s)
  {
    EncodeSessions(s);
    EncodeSecondary(s);
    EncodeIdentity(s);
  }

  /** The proxy holds the namespace and the primary session as they are. */
  lemma EncodeSessions(s: State)
    ensures var b := Encode(s);
            && Text(b, "namespace") == Some(s.namespace) && Text(b, NamespaceHashField) == Some(s.namespace_hash)
            && Text(b, "session") == Some(s.session) && Text(b, "session_hash") == Some(s.session_hash)
            && Word(b, "session_version") == Some(s.session_version)
  {
  }

  /** The proxy holds the secondary session, the measurement and the volume
      version as they are. */
  lemma EncodeSecondary(s: State)
    ensures var b := Encode(s);
            && Text(b, "session2") == Some(s.session2) && Text(b, "session_hash2") == Some(s.session_hash2)
            && Text(b, MrenclaveField) == Some(s.mrenclave)
            && Word(b, "session_version2") == Some(s.session_version2)
            && Word(b, "volume_version") == Some(s.volume_version)
  {
  }

  /** The proxy holds the image, the account and the secret as they are. */
  lemma EncodeIdentity(s: State)
    ensures var b := Encode(s);
            && Text(b, ImageField) == Some(s.otp_image) && Text(b, BinaryField) == Some(s.otp_binary)
            && Text(b, "scone_user") == Some(s.scone_user) && Text(b, "scone_account") == Some(s.scone_account)
            && Text(b, "secret") == Some(s.secret)
  {
  }

  /** Replacing the `mrenclave` binding of a record's proxy and deserializing
      changes that field only. */
  lemma DecodeMeasured(s: State, m: string)
    ensures Decode(Encode(s)[MrenclaveField := Str(m)]) == Some(s.(mrenclave := m))
  {
    assert Encode(s)[MrenclaveField := Str(m)] == Encode(s.(mrenclave := m));
    DecodeEncode(s.(mrenclave := m));
  }

  /** The proxy exposes the fields the measurement reads. */
  lemma EncodeFields(s: State)
    ensures Field(Encode(s), MrenclaveField) == Str(s.mrenclave)
    ensures Field(Encode(s), ImageField) == Str(s.otp_image)
    ensures Field(Encode(s), BinaryField) == Str(s.otp_binary)
  {
  }

  /** The `Serialize + Deserialize` implementation of `State`. */
  function StateCodec(): Codec<State>
  {
    Codec(Encode, Decode)
  }

  /** `check_mrenclave` on a `State`: the record is measured again exactly
      when its measurement is empty or `force` is set; a measurement that the
      pipeline reports as successful replaces that one field by what it
      printed, and one it reports as failed is an error. */
  function Measured(reply: Replies, at: nat, s: State, force: bool, pipeline: Outcome -> Outcome)
    : (out: Trace<State>)
    ensures |out.calls| <= 1
    ensures |out.calls| == 1 <==> |s.mrenclave| == 0 || force
    ensures |out.calls| == 1 ==> out.calls[0] == Measure(Str(s.otp_image), Str(s.otp_binary))
    ensures |out.calls| == 0 ==> out == Trace(Ok(s), [])
    ensures !out.result.Panic?
    ensures out.result.Ok? ==> out.result.value == s.(mrenclave := out.result.value.mrenclave)
    ensures out.result.Ok? && |out.calls| == 1 ==>
              out.result.value.mrenclave == pipeline(reply(at, out.calls[0])).stdout
    ensures out.result.Err? <==> |out.calls| == 1 && !pipeline(reply(at, out.calls[0])).ok
  {
    if |s.mrenclave| > 0 && !force then Trace(Ok(s), [])
    else
      var c := Measure(Str(s.otp_image), Str(s.otp_binary));
      var measured := pipeline(reply(at, c));
      Trace(if measured.ok then Ok(s.(mrenclave := measured.stdout)) else Err(MrEnclaveFailed), [c])
  }

  /** The generic measurement over the record's JSON proxy is exactly the
      measurement of the record: the proxy exposes the image and the binary,
      and replacing its `mrenclave` binding deserializes back into the record
      with that one field changed. */
  lemma {:induction false} MeasurementOfState(reply: Replies, at: nat, s: State, force: bool,
                                              pipeline: Outcome -> Outcome)
    ensures Measurement(StateCodec(), reply, at, s, MrenclaveField, ImageField, BinaryField, force, pipeline)
            == Measured(reply, at, s, force, pipeline)
  {
    EncodeFields(s);
    if |s.mrenclave| == 0 || force {
      var measured := pipeline(reply(at, Measure(Str(s.otp_image), Str(s.otp_binary))));
      DecodeMeasured(s, measured.stdout);
    }
  }

  // ---------------------------------------------------------------------------
  // create_command
  // ---------------------------------------------------------------------------

  const StateFile := "state.js"

  /** What no step of a command changes: the session names, the volume
      version, the measured image and binary, the user, the account and the
      secret. */
  predicate SameIdentity(a: State, b: State)
  {
    && a.namespace == b.namespace && a.session == b.session && a.session2 == b.session2
    && a.volume_version == b.volume_version && a.otp_image == b.otp_image && a.otp_binary == b.otp_binary
    && a.scone_user == b.scone_user && a.scone_account == b.scone_account && a.secret == b.secret
  }

  /** The three sessions a command reconciles, in order. */
  datatype Slot = NamespaceSlot | PrimarySlot | SecondarySlot

  function SessionName(s: State, slot: Slot): string
  {
    match slot
    case NamespaceSlot => s.namespace
    case PrimarySlot => s.session
    case SecondarySlot => s.session2
  }

  function SessionHash(s: State, slot: Slot): string
  {
    match slot
    case NamespaceSlot => s.namespace_hash
    case PrimarySlot => s.session_hash
    case SecondarySlot => s.session_hash2
  }

  function SlotTemplate(t: Templates, slot: Slot): string
  {
    match slot
    case NamespaceSlot => t.namespace
    case PrimarySlot => t.primary
    case SecondarySlot => t.secondary
  }

  /** The message of the `expect` that guards the slot's reconciliation. */
  function SlotMessage(slot: Slot): Failure
  {
    match slot
    case NamespaceSlot => CreatingNamespace
    case PrimarySlot => CreatingSession
    case SecondarySlot => CreatingSession2
  }

  /** The record after a slot's session was reconciled to `hash`: the hash
      is stored and, for the two sessions, the version is brought up to the
      volume version. */
  function Record(s: State, slot: Slot, hash: string): State
  {
    match slot
    case NamespaceSlot => s.(namespace_hash := hash)
    case PrimarySlot => s.(session_hash := hash, session_version := s.volume_version)
    case SecondarySlot => s.(session_hash2 := hash, session_version2 := s.volume_version)
  }

  /** `expect` on a failed step: the process aborts; an abort inside the step
      keeps its own message. */
  function Abort<T, U>(r: Result<T>, message: Failure): (a: Result<U>)
    requires !r.Ok?
    ensures a.Panic?
  {
    match r
    case Err(_) => Panic(message)
    case Panic(reason) => Panic(reason)
  }

  /** One reconciliation step of `create_command`: `create_session` on the
      slot's session with the JSON proxy of the current record, then `expect`
      on its result. */
  function Step(reconcile: Reconciler<State>, t: Templates, at: nat, slot: Slot, s: State, force: bool)
    : Trace<State>
  {
    var r := reconcile(at, SessionName(s, slot), SessionHash(s, slot), SlotTemplate(t, slot), s, force);
    Trace(if r.result.Ok? then Ok(Record(s, slot, r.result.value)) else Abort(r.result, SlotMessage(slot)),
          r.calls)
  }

  /** A reconciliation step as the command sees it: from the number of
      commands issued before it, the slot, the current record and the step's
      flag to the record after the step and the commands the step issued. */
  type Stepper = (nat, Slot, State, bool) -> Trace<State>

  /** The steps of `create_command`, reconciling with `reconcile` from the
      templates `t`. */
  function SessionSteps(reconcile: Reconciler<State>, t: Templates): Stepper
  {
    (at: nat, slot: Slot, s: State, force: bool) => Step(reconcile, t, at, slot, s, force)
  }

  /** The slot reconciled after `slot`; the secondary session is the last. */
  function Next(slot: Slot): Slot
    requires slot != SecondarySlot
  {
    if slot == NamespaceSlot then PrimarySlot else SecondarySlot
  }

  /** How many slots follow `slot`. */
  function Rank(slot: Slot): nat
  {
    match slot
    case NamespaceSlot => 2
    case PrimarySlot => 1
    case SecondarySlot => 0
  }

  /** The flag a slot's step runs with: the namespace takes the flag it is
      handed, each session adds its own version drift to it. */
  function Forced(s: State, slot: Slot, force: bool): (f: bool)
  {
    match slot
    case NamespaceSlot => force
    case PrimarySlot => force || s.session_version != s.volume_version
    case SecondarySlot => force || s.session_version2 != s.volume_version
  }

  /** The names of the sessions reconciled from `slot` on, in order. */
  function Names(s: State, slot: Slot): seq<string>
  {
    match slot
    case NamespaceSlot => [s.namespace, s.session, s.session2]
    case PrimarySlot => [s.session, s.session2]
    case SecondarySlot => [s.session2]
  }

  /** No hash is known yet for the sessions from `slot` on. */
  predicate Unknown(s: State, slot: Slot)
  {
    match slot
    case NamespaceSlot => |s.namespace_hash| == 0 && |s.session_hash| == 0 && |s.session_hash2| == 0
    case PrimarySlot => |s.session_hash| == 0 && |s.session_hash2| == 0
    case SecondarySlot => |s.session_hash2| == 0
  }

  // What a step guarantees, whatever the remote store replies, one
  // predicate per concern so that a proof only unfolds the ones it uses.

  /** It aborts or stores a hash for its own slot and changes nothing else. */
  ghost predicate StepRecords(step: Stepper, at: nat, slot: Slot, s: State, f: bool)
  {
    var out := step(at, slot, s, f);
    && (out.result.Ok? || out.result.Panic?)
    && (out.result.Ok? ==> out.result.value == Record(s, slot, SessionHash(out.result.value, slot)))
  }

  /** With a known hash and no flag it keeps that hash and issues nothing. */
  ghost predicate StepQuiet(step: Stepper, at: nat, slot: Slot, s: State, f: bool)
  {
    |SessionHash(s, slot)| > 0 && !f ==> step(at, slot, s, f) == Trace(Ok(Record(s, slot, SessionHash(s, slot))), [])
  }

  /** Otherwise it reads its own session, once. */
  ghost predicate StepReads(step: Stepper, at: nat, slot: Slot, s: State, f: bool)
  {
    Reads(step(at, slot, s, f).calls) == (if |SessionHash(s, slot)| == 0 || f then [SessionName(s, slot)] else [])
  }

  /** It creates at most once, and never without that read. */
  ghost predicate StepCreates(step: Stepper, at: nat, slot: Slot, s: State, f: bool)
  {
    var out := step(at, slot, s, f);
    Creates(out.calls) <= |Reads(out.calls)|
  }

  /** It creates exactly once when forced and successful. */
  ghost predicate StepRecreates(step: Stepper, at: nat, slot: Slot, s: State, f: bool)
  {
    var out := step(at, slot, s, f);
    f && out.result.Ok? ==> Creates(out.calls) == 1
  }

  /** It measures nothing, and every create follows a successful check of the
      same document. */
  ghost predicate StepValidated(step: Stepper, reply: Replies, at: nat, slot: Slot, s: State, f: bool)
  {
    var out := step(at, slot, s, f);
    Measures(out.calls) == 0 && CommitsValidated(reply, at, out.calls)
  }

  /** It reads before anything else and only its own read is answered; when
      it succeeds it has created its own session exactly when it read it and
      was forced or the read was refused, and no other session. */
  ghost predicate StepCreated(step: Stepper, reply: Replies, at: nat, slot: Slot, s: State, f: bool)
  {
    var out := step(at, slot, s, f);
    var read := |SessionHash(s, slot)| == 0 || f;
    var ok := reply(at, Read(SessionName(s, slot))).ok;
    && StartsWithRead(out.calls)
    && ReadsAnswered(reply, at, out.calls) == (if read then [ok] else [])
    && (out.result.Ok? ==> Created(out.calls) == (if read && (f || !ok) then [SessionName(s, slot)] else []))
  }

  /** Every step, at every position, on every record and with either flag,
      keeps each of the above. */
  ghost predicate StepsRecord(step: Stepper)
  {
    forall at: nat, slot: Slot, s: State, f: bool :: StepRecords(step, at, slot, s, f)
  }

  ghost predicate StepsQuiet(step: Stepper)
  {
    forall at: nat, slot: Slot, s: State, f: bool :: StepQuiet(step, at, slot, s, f)
  }

  ghost predicate StepsRead(step: Stepper)
  {
    forall at: nat, slot: Slot, s: State, f: bool :: StepReads(step, at, slot, s, f)
  }

  ghost predicate StepsCreate(step: Stepper)
  {
    forall at: nat, slot: Slot, s: State, f: bool :: StepCreates(step, at, slot, s, f)
  }

  ghost predicate StepsRecreate(step: Stepper)
  {
    forall at: nat, slot: Slot, s: State, f: bool :: StepRecreates(step, at, slot, s, f)
  }

  ghost predicate StepsValidate(step: Stepper, reply: Replies)
  {
    forall at: nat, slot: Slot, s: State, f: bool :: StepValidated(step, reply, at, slot, s, f)
  }

  ghost predicate StepsCreated(step: Stepper, reply: Replies)
  {
    forall at: nat, slot: Slot, s: State, f: bool :: StepCreated(step, reply, at, slot, s, f)
  }

  /** Every step keeps all of the above. */
  ghost predicate StepsHonor(step: Stepper, reply: Replies)
  {
    && StepsRecord(step) && StepsQuiet(step) && StepsRead(step) && StepsCreate(step) && StepsRecreate(step)
    && StepsValidate(step, reply) && StepsCreated(step, reply)
  }

  /** `create_session` followed by `expect` is such a step whenever
      `create_session` keeps its own contract. */
  lemma SessionStepsHonor(reply: Replies, reconcile: Reconciler<State>, t: Templates)
    requires Honors(reconcile, reply)
    ensures StepsHonor(SessionSteps(reconcile, t), reply)
  {
    var step := SessionSteps(reconcile, t);
    forall at: nat, slot: Slot, s: State, f: bool
      ensures StepRecords(step, at, slot, s, f) && StepQuiet(step, at, slot, s, f)
      ensures StepReads(step, at, slot, s, f) && StepCreates(step, at, slot, s, f)
      ensures StepRecreates(step, at, slot, s, f)
      ensures StepValidated(step, reply, at, slot, s, f) && StepCreated(step, reply, at, slot, s, f)
    {
      assert Honored(reconcile, reply, at, SessionName(s, slot), SessionHash(s, slot), SlotTemplate(t, slot), s, f);
    }
  }

  /** The reconciliation steps of `create_command` from `slot` on. Each step
      runs with its slot's flag and hands that flag on (the source rebinds
      `force` after each step); the first failure aborts. */
  function Sessions(step: Stepper, at: nat, s: State, slot: Slot, force: bool): (out: Trace<State>)
    decreases Rank(slot)
  {
    var f := Forced(s, slot, force);
    var r := step(at, slot, s, f);
    if !r.result.Ok? || slot == SecondarySlot then r
    else Then(r.calls, Sessions(step, at + |r.calls|, r.result.value, Next(slot), f))
  }

  /** Session steps that all succeed bring the sessions from `slot` on up to
      the volume version and change neither the names, the measurement nor
      the identity; a failed step aborts. */
  lemma {:induction false} SessionsUpToDate(step: Stepper, at: nat, s: State, slot: Slot, force: bool)
    requires StepsRecord(step)
    decreases Rank(slot)
    ensures var out := Sessions(step, at, s, slot, force);
            && (out.result.Ok? || out.result.Panic?)
            && (out.result.Ok? ==>
                  var r := out.result.value;
                  && SameIdentity(s, r) && r.mrenclave == s.mrenclave && r.session_version2 == r.volume_version
                  && r.session_version == (if slot == SecondarySlot then s.session_version else r.volume_version))
  {
    var f := Forced(s, slot, force);
    var st := step(at, slot, s, f);
    assert StepRecords(step, at, slot, s, f);
    if st.result.Ok? && slot != SecondarySlot {
      SessionsUpToDate(step, at + |st.calls|, st.result.value, Next(slot), f);
    }
    UpToDateFromStep(step, at, s, slot, force);
  }

  /** One step of `SessionsUpToDate`: the first step records its hash, the
      later steps bring the rest up to date. */
  lemma {:induction false} UpToDateFromStep(step: Stepper, at: nat, s: State, slot: Slot, force: bool)
    requires StepRecords(step, at, slot, s, Forced(s, slot, force))
    requires var f := Forced(s, slot, force);
             var st := step(at, slot, s, f);
             st.result.Ok? && slot != SecondarySlot ==>
               var out := Sessions(step, at + |st.calls|, st.result.value, Next(slot), f);
               && (out.result.Ok? || out.result.Panic?)
               && (out.result.Ok? ==>
                     var r := out.result.value;
                     && SameIdentity(st.result.value, r) && r.mrenclave == st.result.value.mrenclave
                     && r.session_version2 == r.volume_version
                     && r.session_version == (if Next(slot) == SecondarySlot then st.result.value.session_version
                                              else r.volume_version))
    ensures var out := Sessions(step, at, s, slot, force);
            && (out.result.Ok? || out.result.Panic?)
            && (out.result.Ok? ==>
                  var r := out.result.value;
                  && SameIdentity(s, r) && r.mrenclave == s.mrenclave && r.session_version2 == r.volume_version
                  && r.session_version == (if slot == SecondarySlot then s.session_version else r.volume_version))
  {
    var f := Forced(s, slot, force);
    var st := step(at, slot, s, f);
    if st.result.Ok? && slot != SecondarySlot {
      var rest := Sessions(step, at + |st.calls|, st.result.value, Next(slot), f);
      assert Sessions(step, at, s, slot, force).result == rest.result;
    }
  }

  // ---------------------------------------------------------------------------
  // What one command issues
  // ---------------------------------------------------------------------------

  /** The sessions the steps from `slot` on read when they all succeed, in
      slot order: each session whose hash is unknown or whose step is forced. */
  function Planned(s: State, slot: Slot, force: bool): (names: seq<string>)
    decreases Rank(slot)
  {
    var f := Forced(s, slot, force);
    (if |SessionHash(s, slot)| == 0 || f then [SessionName(s, slot)] else [])
    + (if slot == SecondarySlot then [] else Planned(s, Next(slot), f))
  }

  /** How many of the steps from `slot` on are forced. */
  function Recreated(s: State, slot: Slot, force: bool): (n: nat)
    decreases Rank(slot)
  {
    var f := Forced(s, slot, force);
    (if f then 1 else 0) + (if slot == SecondarySlot then 0 else Recreated(s, Next(slot), f))
  }

  /** Two records agree on everything the steps from `slot` on look at: the
      names, hashes and versions of those sessions and the volume version. */
  predicate SamePlan(a: State, b: State, slot: Slot)
  {
    && a.volume_version == b.volume_version
    && a.session2 == b.session2 && a.session_hash2 == b.session_hash2 && a.session_version2 == b.session_version2
    && (slot != SecondarySlot ==>
          a.session == b.session && a.session_hash == b.session_hash && a.session_version == b.session_version)
    && (slot == NamespaceSlot ==> a.namespace == b.namespace && a.namespace_hash == b.namespace_hash)
  }

  /** The plan depends on nothing else. */
  lemma {:induction false} PlanAgrees(a: State, b: State, slot: Slot, force: bool)
    requires SamePlan(a, b, slot)
    decreases Rank(slot)
    ensures Planned(a, slot, force) == Planned(b, slot, force)
    ensures Recreated(a, slot, force) == Recreated(b, slot, force)
  {
    if slot != SecondarySlot {
      PlanAgrees(a, b, Next(slot), Forced(a, slot, force));
    }
  }

  /** Each step reads at most its own session, so the plan is at most the
      remaining sessions; a forced step is a planned one. */
  lemma {:induction false} PlannedBounds(s: State, slot: Slot, force: bool)
    decreases Rank(slot)
    ensures Recreated(s, slot, force) <= |Planned(s, slot, force)| <= |Names(s, slot)|
  {
    if slot != SecondarySlot {
      PlannedBounds(s, Next(slot), Forced(s, slot, force));
    }
  }

  /** A forced step hands its flag on: every later step is forced, so all the
      remaining sessions are read and recreated. */
  lemma {:induction false} PlannedForced(s: State, slot: Slot, force: bool)
    requires Forced(s, slot, force)
    decreases Rank(slot)
    ensures Planned(s, slot, force) == Names(s, slot)
    ensures Recreated(s, slot, force) == |Names(s, slot)|
  {
    if slot != SecondarySlot {
      PlannedForced(s, Next(slot), true);
    }
  }

  /** On a record that knows none of the remaining hashes, every remaining
      session is read. */
  lemma {:induction false} PlannedFresh(s: State, slot: Slot, force: bool)
    requires Unknown(s, slot)
    decreases Rank(slot)
    ensures Planned(s, slot, force) == Names(s, slot)
  {
    if slot != SecondarySlot {
      PlannedFresh(s, Next(slot), Forced(s, slot, force));
    }
  }

  /** Version drift: when the primary session was created for an older
      volume version, the plan ends with the primary and the secondary
      session and both are recreated (the primary's flag carries over); when
      the secondary session was, the plan ends with the secondary session. */
  lemma {:induction false} PlannedDrift(s: State, force: bool)
    ensures var p := Planned(s, NamespaceSlot, force);
            s.session_version != s.volume_version ==>
              |p| >= 2 && p[|p| - 2..] == [s.session, s.session2] && Recreated(s, NamespaceSlot, force) >= 2
    ensures var p := Planned(s, NamespaceSlot, force);
            s.session_version2 != s.volume_version ==>
              |p| >= 1 && p[|p| - 1] == s.session2 && Recreated(s, NamespaceSlot, force) >= 1
  {
    var p := Planned(s, NamespaceSlot, force);
    var first := if |s.namespace_hash| == 0 || force then [s.namespace] else [];
    var p1 := Planned(s, PrimarySlot, force);
    assert p == first + p1;
    if s.session_version != s.volume_version {
      PlannedForced(s, PrimarySlot, force);
      assert p1 == [s.session, s.session2];
      assert p[|p| - 2..] == p1;
    }
    var f := Forced(s, PrimarySlot, force);
    var p2 := Planned(s, SecondarySlot, f);
    assert p1 == (if |s.session_hash| == 0 || f then [s.session] else []) + p2;
    if s.session_version2 != s.volume_version {
      assert p2 == [s.session2];
      assert p[|p| - 1] == p2[0];
    }
  }

  /** A step changes nothing the later steps plan with. */
  lemma PlanAfterStep(s: State, slot: Slot, hash: string, force: bool)
    requires slot != SecondarySlot
    ensures Planned(Record(s, slot, hash), Next(slot), force) == Planned(s, Next(slot), force)
    ensures Recreated(Record(s, slot, hash), Next(slot), force) == Recreated(s, Next(slot), force)
  {
    PlanAgrees(Record(s, slot, hash), s, Next(slot), force);
  }

  /** Measuring changes nothing the steps plan with. */
  lemma PlanAfterMeasure(s: State, m: string, force: bool)
    ensures Planned(s.(mrenclave := m), NamespaceSlot, force) == Planned(s, NamespaceSlot, force)
    ensures Recreated(s.(mrenclave := m), NamespaceSlot, force) == Recreated(s, NamespaceSlot, force)
  {
    PlanAgrees(s.(mrenclave := m), s, NamespaceSlot, force);
  }

  /** The sessions the steps from `slot` on create when they all succeed,
      given the answers to their reads in order: a step that reads creates
      its session when it is forced or its read was refused. */
  function Creations(s: State, slot: Slot, force: bool, answers: seq<bool>): (names: seq<string>)
    decreases Rank(slot)
  {
    var f := Forced(s, slot, force);
    var refused := |answers| > 0 && !answers[0];
    (if (|SessionHash(s, slot)| == 0 || f) && (f || refused) then [SessionName(s, slot)] else [])
    + (if slot == SecondarySlot then [] else Creations(s, Next(slot), f, Remaining(s, slot, force, answers)))
  }

  /** The answers left for the later steps: a step that reads takes the first. */
  function Remaining(s: State, slot: Slot, force: bool, answers: seq<bool>): seq<bool>
  {
    if (|SessionHash(s, slot)| == 0 || Forced(s, slot, force)) && |answers| > 0 then answers[1..] else answers
  }

  /** The names whose read was refused, pairing names with answers in order. */
  function Refused(names: seq<string>, answers: seq<bool>): (refused: seq<string>)
    decreases |names|
  {
    if names == [] || answers == [] then []
    else (if answers[0] then [] else [names[0]]) + Refused(names[1..], answers[1..])
  }

  /** What the steps create depends on nothing but the plan and the answers. */
  lemma {:induction false} CreationsAgree(a: State, b: State, slot: Slot, force: bool, answers: seq<bool>)
    requires SamePlan(a, b, slot)
    decreases Rank(slot)
    ensures Creations(a, slot, force, answers) == Creations(b, slot, force, answers)
  {
    if slot != SecondarySlot {
      CreationsAgree(a, b, Next(slot), Forced(a, slot, force), Remaining(a, slot, force, answers));
    }
  }

  /** Forced steps recreate every remaining session, whatever the answers. */
  lemma {:induction false} CreationsForced(s: State, slot: Slot, force: bool, answers: seq<bool>)
    requires Forced(s, slot, force)
    decreases Rank(slot)
    ensures Creations(s, slot, force, answers) == Names(s, slot)
  {
    if slot != SecondarySlot {
      CreationsForced(s, Next(slot), true, Remaining(s, slot, force, answers));
    }
  }

  /** Unforced steps with no version drift create exactly the planned
      sessions whose read was refused. */
  lemma {:induction false} CreationsSteady(s: State, slot: Slot, answers: seq<bool>)
    requires s.session_version2 == s.volume_version
    requires slot != SecondarySlot ==> s.session_version == s.volume_version
    decreases Rank(slot)
    ensures Creations(s, slot, false, answers) == Refused(Planned(s, slot, false), answers)
  {
    var name := SessionName(s, slot);
    var read := |SessionHash(s, slot)| == 0;
    var later := Remaining(s, slot, false, answers);
    var rest := if slot == SecondarySlot then [] else Planned(s, Next(slot), false);
    if slot != SecondarySlot {
      CreationsSteady(s, Next(slot), later);
    } else {
      assert Refused([], later) == [];
    }
    assert Planned(s, slot, false) == (if read then [name] else []) + rest;
    if read {
      assert ([name] + rest)[1..] == rest;
    } else {
      assert [] + rest == rest;
    }
  }

  /** The creations from `slot` on when the slot's step got the answer `ok`
      if it read, and the later steps got `later`. */
  lemma CreationsStep(s: State, slot: Slot, force: bool, ok: bool, later: seq<bool>)
    ensures var f := Forced(s, slot, force);
            var read := |SessionHash(s, slot)| == 0 || f;
            var mine := if read && (f || !ok) then [SessionName(s, slot)] else [];
            && (slot != SecondarySlot ==>
                  Creations(s, slot, force, (if read then [ok] else []) + later)
                  == mine + Creations(s, Next(slot), f, later))
            && (slot == SecondarySlot ==> Creations(s, slot, force, if read then [ok] else []) == mine)
  {
    var f := Forced(s, slot, force);
    var read := |SessionHash(s, slot)| == 0 || f;
    var answers := (if read then [ok] else []) + later;
    if read {
      assert answers[0] == ok && answers[1..] == later;
    } else {
      assert answers == later;
    }
  }

  /** The creations from `slot` on end with those of the later steps. */
  lemma CreationsEndWith(s: State, slot: Slot, force: bool, answers: seq<bool>)
    requires slot != SecondarySlot
    ensures var c := Creations(s, slot, force, answers);
            var rest := Creations(s, Next(slot), Forced(s, slot, force), Remaining(s, slot, force, answers));
            |c| >= |rest| && c[|c| - |rest|..] == rest
  {
  }

  /** Version drift: with drift on the primary session the creations end
      with the primary and the secondary session, with drift on the secondary
      session they end with the secondary session. */
  lemma {:induction false} CreationsDrift(s: State, force: bool, answers: seq<bool>)
    ensures var c := Creations(s, NamespaceSlot, force, answers);
            s.session_version != s.volume_version ==> |c| >= 2 && c[|c| - 2..] == [s.session, s.session2]
    ensures var c := Creations(s, NamespaceSlot, force, answers);
            s.session_version2 != s.volume_version ==> |c| >= 1 && c[|c| - 1] == s.session2
  {
    if s.session_version != s.volume_version {
      PrimaryDrift(s, force, answers);
    }
    if s.session_version2 != s.volume_version {
      SecondaryDrift(s, force, answers);
    }
  }

  /** Drift on the primary session: the primary step is forced, so the
      creations end with the primary and the secondary session. */
  lemma {:induction false} PrimaryDrift(s: State, force: bool, answers: seq<bool>)
    requires s.session_version != s.volume_version
    ensures var c := Creations(s, NamespaceSlot, force, answers);
            |c| >= 2 && c[|c| - 2..] == [s.session, s.session2]
  {
    var a1 := Remaining(s, NamespaceSlot, force, answers);
    CreationsEndWith(s, NamespaceSlot, force, answers);
    CreationsForced(s, PrimarySlot, force, a1);
    assert Creations(s, PrimarySlot, force, a1) == [s.session, s.session2];
  }

  /** Drift on the secondary session: the secondary step is forced, so the
      creations end with the secondary session. */
  lemma {:induction false} SecondaryDrift(s: State, force: bool, answers: seq<bool>)
    requires s.session_version2 != s.volume_version
    ensures var c := Creations(s, NamespaceSlot, force, answers);
            |c| >= 1 && c[|c| - 1] == s.session2
  {
    var a1 := Remaining(s, NamespaceSlot, force, answers);
    var f := Forced(s, PrimarySlot, force);
    var a2 := Remaining(s, PrimarySlot, force, a1);
    CreationsEndWith(s, NamespaceSlot, force, answers);
    CreationsEndWith(s, PrimarySlot, force, a1);
    CreationsForced(s, SecondarySlot, f, a2);
    assert Creations(s, SecondarySlot, f, a2) == [s.session2];
    SuffixLast(Creations(s, NamespaceSlot, force, answers), Creations(s, PrimarySlot, force, a1),
               Creations(s, SecondarySlot, f, a2));
  }

  /** A sequence that ends with one that ends with a last element ends with
      that element. */
  lemma SuffixLast<T>(c: seq<T>, c1: seq<T>, c2: seq<T>)
    requires |c| >= |c1| && c[|c| - |c1|..] == c1
    requires |c1| >= |c2| >= 1 && c1[|c1| - |c2|..] == c2
    ensures c[|c| - 1] == c2[|c2| - 1]
  {
    assert c1[|c1| - 1] == c2[|c2| - 1];
    assert c[|c| - 1] == c1[|c1| - 1];
  }

  /** The sessions read by two runs of commands, one after the other, when the
      second reads a prefix of `later`. */
  lemma ReadsThen(a: seq<Call>, b: seq<Call>, later: seq<string>)
    requires Reads(b) <= later
    ensures Reads(a + b) <= Reads(a) + later
    ensures Reads(b) == later ==> Reads(a + b) == Reads(a) + later
  {
    ReadsAppend(a, b);
    PrefixAppend(Reads(a), Reads(b), later);
  }

  /** A prefix stays a prefix behind a common start. */
  lemma PrefixAppend<T>(a: seq<T>, x: seq<T>, y: seq<T>)
    requires x <= y
    ensures a + x <= a + y
  {
    assert forall i :: 0 <= i < |a + x| ==> (a + x)[i] == (a + y)[i];
  }

  /** The session steps from `slot` on read the planned sessions in order:
      all of them when every step succeeds, the first few when one aborts. */
  lemma {:induction false} SessionsReads(step: Stepper, at: nat, s: State, slot: Slot, force: bool)
    requires StepsRecord(step) && StepsRead(step)
    decreases Rank(slot)
    ensures var out := Sessions(step, at, s, slot, force);
            && Reads(out.calls) <= Planned(s, slot, force)
            && (out.result.Ok? ==> Reads(out.calls) == Planned(s, slot, force))
  {
    var f := Forced(s, slot, force);
    var st := step(at, slot, s, f);
    assert StepRecords(step, at, slot, s, f) && StepReads(step, at, slot, s, f);
    if st.result.Ok? && slot != SecondarySlot {
      SessionsReads(step, at + |st.calls|, st.result.value, Next(slot), f);
      ReadsByFirstStep(step, at, s, slot, force);
    } else {
      ReadsByLastStep(step, at, s, slot, force);
    }
  }

  /** `SessionsReads` when the first step is the last one: it fails, or it
      is the secondary session's. */
  lemma {:induction false} ReadsByLastStep(step: Stepper, at: nat, s: State, slot: Slot, force: bool)
    requires var f := Forced(s, slot, force);
             var st := step(at, slot, s, f);
             StepReads(step, at, slot, s, f) && (!st.result.Ok? || slot == SecondarySlot)
    ensures var out := Sessions(step, at, s, slot, force);
            && Reads(out.calls) <= Planned(s, slot, force)
            && (out.result.Ok? ==> Reads(out.calls) == Planned(s, slot, force))
  {
    var f := Forced(s, slot, force);
    var first := if |SessionHash(s, slot)| == 0 || f then [SessionName(s, slot)] else [];
    var later := if slot == SecondarySlot then [] else Planned(s, Next(slot), f);
    SessionsUnfold(step, at, s, slot, force);
    assert Planned(s, slot, force) == first + later;
    PrefixAppend(first, [], later);
    assert first + [] == first;
  }

  /** `SessionsReads` when the first step succeeds and later steps follow. */
  lemma {:induction false} ReadsByFirstStep(step: Stepper, at: nat, s: State, slot: Slot, force: bool)
    requires var f := Forced(s, slot, force);
             var st := step(at, slot, s, f);
             && StepRecords(step, at, slot, s, f) && StepReads(step, at, slot, s, f)
             && st.result.Ok? && slot != SecondarySlot
    requires var f := Forced(s, slot, force);
             var st := step(at, slot, s, f);
             var rest := Sessions(step, at + |st.calls|, st.result.value, Next(slot), f);
             && Reads(rest.calls) <= Planned(st.result.value, Next(slot), f)
             && (rest.result.Ok? ==> Reads(rest.calls) == Planned(st.result.value, Next(slot), f))
    ensures var out := Sessions(step, at, s, slot, force);
            && Reads(out.calls) <= Planned(s, slot, force)
            && (out.result.Ok? ==> Reads(out.calls) == Planned(s, slot, force))
  {
    var f := Forced(s, slot, force);
    var st := step(at, slot, s, f);
    var s2 := st.result.value;
    var rest := Sessions(step, at + |st.calls|, s2, Next(slot), f);
    var first := if |SessionHash(s, slot)| == 0 || f then [SessionName(s, slot)] else [];
    var later := Planned(s, Next(slot), f);
    SessionsUnfold(step, at, s, slot, force);
    assert Planned(s, slot, force) == first + later;
    PlanAfterStep(s, slot, SessionHash(s2, slot), f);
    ReadsThen(st.calls, rest.calls, later);
  }

  /** The session steps create no more sessions than they read: each step
      creates only after reading its own session. */
  lemma {:induction false} SessionsCreates(step: Stepper, at: nat, s: State, slot: Slot, force: bool)
    requires StepsCreate(step)
    decreases Rank(slot)
    ensures var out := Sessions(step, at, s, slot, force);
            Creates(out.calls) <= |Reads(out.calls)|
  {
    var f := Forced(s, slot, force);
    var st := step(at, slot, s, f);
    assert StepCreates(step, at, slot, s, f);
    if st.result.Ok? && slot != SecondarySlot {
      SessionsCreates(step, at + |st.calls|, st.result.value, Next(slot), f);
    }
    CreatesFromStep(step, at, s, slot, force);
  }

  /** One step of `SessionsCreates`: the first step's creates and reads added
      to the later steps'. */
  lemma {:induction false} CreatesFromStep(step: Stepper, at: nat, s: State, slot: Slot, force: bool)
    requires StepCreates(step, at, slot, s, Forced(s, slot, force))
    requires var f := Forced(s, slot, force);
             var st := step(at, slot, s, f);
             st.result.Ok? && slot != SecondarySlot ==>
               var rest := Sessions(step, at + |st.calls|, st.result.value, Next(slot), f);
               Creates(rest.calls) <= |Reads(rest.calls)|
    ensures var out := Sessions(step, at, s, slot, force);
            Creates(out.calls) <= |Reads(out.calls)|
  {
    var out := Sessions(step, at, s, slot, force);
    var f := Forced(s, slot, force);
    var st := step(at, slot, s, f);
    if !st.result.Ok? || slot == SecondarySlot {
      assert out.calls == st.calls;
    } else {
      var rest := Sessions(step, at + |st.calls|, st.result.value, Next(slot), f);
      assert out.calls == st.calls + rest.calls;
      CreatesAppend(st.calls, rest.calls);
      ReadsAppend(st.calls, rest.calls);
    }
  }

  /** Session steps that all succeed create at least one session per forced
      step. */
  lemma {:induction false} SessionsRecreate(step: Stepper, at: nat, s: State, slot: Slot, force: bool)
    requires StepsRecord(step) && StepsRecreate(step)
    decreases Rank(slot)
    ensures var out := Sessions(step, at, s, slot, force);
            out.result.Ok? ==> Recreated(s, slot, force) <= Creates(out.calls)
  {
    var f := Forced(s, slot, force);
    var st := step(at, slot, s, f);
    assert StepRecords(step, at, slot, s, f) && StepRecreates(step, at, slot, s, f);
    if st.result.Ok? && slot != SecondarySlot {
      SessionsRecreate(step, at + |st.calls|, st.result.value, Next(slot), f);
    }
    RecreatedFromStep(step, at, s, slot, force);
  }

  /** One step of `SessionsRecreate`: what the first step creates, added to
      what the later steps create. */
  lemma {:induction false} RecreatedFromStep(step: Stepper, at: nat, s: State, slot: Slot, force: bool)
    requires var f := Forced(s, slot, force);
             StepRecords(step, at, slot, s, f) && StepRecreates(step, at, slot, s, f)
    requires var f := Forced(s, slot, force);
             var st := step(at, slot, s, f);
             st.result.Ok? && slot != SecondarySlot ==>
               var rest := Sessions(step, at + |st.calls|, st.result.value, Next(slot), f);
               rest.result.Ok? ==> Recreated(st.result.value, Next(slot), f) <= Creates(rest.calls)
    ensures var out := Sessions(step, at, s, slot, force);
            out.result.Ok? ==> Recreated(s, slot, force) <= Creates(out.calls)
  {
    var out := Sessions(step, at, s, slot, force);
    var f := Forced(s, slot, force);
    var st := step(at, slot, s, f);
    if st.result.Ok? && slot != SecondarySlot {
      var s2 := st.result.value;
      var rest := Sessions(step, at + |st.calls|, s2, Next(slot), f);
      assert out.calls == st.calls + rest.calls && out.result == rest.result;
      PlanAfterStep(s, slot, SessionHash(s2, slot), f);
      CreatesAppend(st.calls, rest.calls);
      assert Recreated(s, slot, force) == (if f then 1 else 0) + Recreated(s, Next(slot), f);
    }
  }

  /** The session steps issue no measurement, and every create they issue
      follows a successful check of the same document. */
  lemma {:induction false} SessionsValidated(reply: Replies, step: Stepper, at: nat, s: State, slot: Slot,
                                             force: bool)
    requires StepsValidate(step, reply)
    decreases Rank(slot)
    ensures var out := Sessions(step, at, s, slot, force);
            Measures(out.calls) == 0 && CommitsValidated(reply, at, out.calls)
  {
    var out := Sessions(step, at, s, slot, force);
    var f := Forced(s, slot, force);
    var st := step(at, slot, s, f);
    assert StepValidated(step, reply, at, slot, s, f);
    if !st.result.Ok? || slot == SecondarySlot {
      assert out.calls == st.calls;
    } else {
      var rest := Sessions(step, at + |st.calls|, st.result.value, Next(slot), f);
      assert out.calls == st.calls + rest.calls;
      SessionsValidated(reply, step, at + |st.calls|, st.result.value, Next(slot), f);
      MeasuresAppend(st.calls, rest.calls);
      CommitsValidatedAppend(reply, at, st.calls, rest.calls);
    }
  }

  /** The session steps attribute every create to a session they read, and
      when they all succeed they have created exactly the sessions the
      answers to their reads call for. */
  lemma {:induction false} SessionsCreated(reply: Replies, step: Stepper, at: nat, s: State, slot: Slot,
                                           force: bool)
    requires StepsRecord(step) && StepsCreated(step, reply)
    decreases Rank(slot)
    ensures var out := Sessions(step, at, s, slot, force);
            && StartsWithRead(out.calls)
            && (out.result.Ok? ==> Created(out.calls) == Creations(s, slot, force, ReadsAnswered(reply, at, out.calls)))
  {
    var f := Forced(s, slot, force);
    var st := step(at, slot, s, f);
    assert StepRecords(step, at, slot, s, f) && StepCreated(step, reply, at, slot, s, f);
    if st.result.Ok? && slot != SecondarySlot {
      SessionsCreated(reply, step, at + |st.calls|, st.result.value, Next(slot), f);
      CreatedByFirstStep(reply, step, at, s, slot, force);
    } else {
      CreatedByLastStep(reply, step, at, s, slot, force);
    }
  }

  /** One unfolding of the session steps. */
  lemma SessionsUnfold(step: Stepper, at: nat, s: State, slot: Slot, force: bool)
    ensures var f := Forced(s, slot, force);
            var r := step(at, slot, s, f);
            Sessions(step, at, s, slot, force)
            == if !r.result.Ok? || slot == SecondarySlot then r
               else Then(r.calls, Sessions(step, at + |r.calls|, r.result.value, Next(slot), f))
  {
  }

  /** `SessionsCreated` when the first step succeeds and later steps follow. */
  lemma {:induction false} CreatedByFirstStep(reply: Replies, step: Stepper, at: nat, s: State, slot: Slot,
                                              force: bool)
    requires var f := Forced(s, slot, force);
             var st := step(at, slot, s, f);
             && StepRecords(step, at, slot, s, f) && StepCreated(step, reply, at, slot, s, f)
             && st.result.Ok? && slot != SecondarySlot
    requires var f := Forced(s, slot, force);
             var st := step(at, slot, s, f);
             var at' := at + |st.calls|;
             var rest := Sessions(step, at', st.result.value, Next(slot), f);
             && StartsWithRead(rest.calls)
             && (rest.result.Ok? ==>
                   Created(rest.calls) == Creations(st.result.value, Next(slot), f, ReadsAnswered(reply, at', rest.calls)))
    ensures var out := Sessions(step, at, s, slot, force);
            && StartsWithRead(out.calls)
            && (out.result.Ok? ==> Created(out.calls) == Creations(s, slot, force, ReadsAnswered(reply, at, out.calls)))
  {
    var f := Forced(s, slot, force);
    var st := step(at, slot, s, f);
    var rest := Sessions(step, at + |st.calls|, st.result.value, Next(slot), f);
    SessionsUnfold(step, at, s, slot, force);
    CreatedThen(reply, s, slot, force, at, st, rest);
  }

  /** `SessionsCreated` when the first step is the last one: it fails, or it
      is the secondary session's. */
  lemma {:induction false} CreatedByLastStep(reply: Replies, step: Stepper, at: nat, s: State, slot: Slot,
                                             force: bool)
    requires var f := Forced(s, slot, force);
             var st := step(at, slot, s, f);
             && StepCreated(step, reply, at, slot, s, f)
             && (!st.result.Ok? || slot == SecondarySlot)
    ensures var out := Sessions(step, at, s, slot, force);
            && StartsWithRead(out.calls)
            && (out.result.Ok? ==> Created(out.calls) == Creations(s, slot, force, ReadsAnswered(reply, at, out.calls)))
  {
    var f := Forced(s, slot, force);
    var st := step(at, slot, s, f);
    assert Sessions(step, at, s, slot, force) == st;
    if st.result.Ok? {
      CreationsStep(s, slot, force, reply(at, Read(SessionName(s, slot))).ok, []);
    }
  }

  /** A step that succeeded, followed by the later steps. */
  lemma {:induction false} CreatedThen(reply: Replies, s: State, slot: Slot, force: bool, at: nat,
                                       st: Trace<State>, rest: Trace<State>)
    requires slot != SecondarySlot && st.result.Ok?
    requires SamePlan(st.result.value, s, Next(slot))
    requires var f := Forced(s, slot, force);
             var read := |SessionHash(s, slot)| == 0 || f;
             var ok := reply(at, Read(SessionName(s, slot))).ok;
             && StartsWithRead(st.calls)
             && ReadsAnswered(reply, at, st.calls) == (if read then [ok] else [])
             && Created(st.calls) == (if read && (f || !ok) then [SessionName(s, slot)] else [])
    requires var at' := at + |st.calls|;
             && StartsWithRead(rest.calls)
             && (rest.result.Ok? ==> Created(rest.calls)
                                     == Creations(st.result.value, Next(slot), Forced(s, slot, force),
                                                  ReadsAnswered(reply, at', rest.calls)))
    ensures var out := Then(st.calls, rest);
            && StartsWithRead(out.calls)
            && (out.result.Ok? ==> Created(out.calls) == Creations(s, slot, force, ReadsAnswered(reply, at, out.calls)))
  {
    var f := Forced(s, slot, force);
    var read := |SessionHash(s, slot)| == 0 || f;
    var ok := reply(at, Read(SessionName(s, slot))).ok;
    var later := ReadsAnswered(reply, at + |st.calls|, rest.calls);
    var out := Then(st.calls, rest);
    AnsweredAppend(reply, at, st.calls, rest.calls);
    assert ReadsAnswered(reply, at, out.calls) == (if read then [ok] else []) + later;
    if rest.result.Ok? {
      CreatedAppend(st.calls, rest.calls, None);
      assert Created(out.calls) == Created(st.calls) + Created(rest.calls);
      CreationsStep(s, slot, force, ok, later);
      CreationsAgree(st.result.value, s, Next(slot), f, later);
    }
  }

  /** The record is up to date: measured, all three hashes known and both
      sessions created for the current volume version. */
  predicate Current(s: State)
  {
    && |s.mrenclave| > 0 && |s.namespace_hash| > 0 && |s.session_hash| > 0 && |s.session_hash2| > 0
    && s.session_version == s.volume_version && s.session_version2 == s.volume_version
  }

  /** Unforced steps on an up-to-date record issue no command at all and hand
      back the record unchanged. */
  lemma {:induction false} SessionsQuiet(step: Stepper, at: nat, s: State)
    requires StepsQuiet(step)
    requires Current(s)
    ensures Sessions(step, at, s, NamespaceSlot, false) == Trace(Ok(s), [])
  {
    assert StepQuiet(step, at, NamespaceSlot, s, false);
    assert StepQuiet(step, at, PrimarySlot, s, false);
    assert StepQuiet(step, at, SecondarySlot, s, false);
    assert Record(s, NamespaceSlot, s.namespace_hash) == s;
    assert Record(s, PrimarySlot, s.session_hash) == s;
    assert Record(s, SecondarySlot, s.session_hash2) == s;
    assert Sessions(step, at, s, SecondarySlot, false) == Trace(Ok(s), []);
    assert Sessions(step, at, s, PrimarySlot, false) == Trace(Ok(s), []);
  }

  // ---------------------------------------------------------------------------
  // The command
  // ---------------------------------------------------------------------------

  /** The session steps as the command sees them: from the number of commands
      issued before them, the measured record and the caller's flag to the
      record to be written back and the commands they issued. */
  type Runner = (nat, State, bool) -> Trace<State>

  /** The three session steps of `create_command`, from the namespace on. */
  function AllSessions(step: Stepper): Runner
  {
    (at: nat, s: State, force: bool) => Sessions(step, at, s, NamespaceSlot, force)
  }

  // What the session steps guarantee as a whole, one predicate per concern.

  ghost predicate RunUpToDate(run: Runner, at: nat, s: State, force: bool)
  {
    var out := run(at, s, force);
    && (out.result.Ok? || out.result.Panic?)
    && (out.result.Ok? ==>
          var r := out.result.value;
          r.session_version == r.session_version2 == r.volume_version && SameIdentity(s, r))
  }

  ghost predicate RunReads(run: Runner, at: nat, s: State, force: bool)
  {
    var out := run(at, s, force);
    && Reads(out.calls) <= Planned(s, NamespaceSlot, force)
    && (out.result.Ok? ==> Reads(out.calls) == Planned(s, NamespaceSlot, force))
  }

  ghost predicate RunCreates(run: Runner, at: nat, s: State, force: bool)
  {
    var out := run(at, s, force);
    Creates(out.calls) <= |Reads(out.calls)|
  }

  ghost predicate RunRecreates(run: Runner, at: nat, s: State, force: bool)
  {
    var out := run(at, s, force);
    out.result.Ok? ==> Recreated(s, NamespaceSlot, force) <= Creates(out.calls)
  }

  ghost predicate RunValidated(run: Runner, reply: Replies, at: nat, s: State, force: bool)
  {
    var out := run(at, s, force);
    Measures(out.calls) == 0 && CommitsValidated(reply, at, out.calls)
  }

  ghost predicate RunCreated(run: Runner, reply: Replies, at: nat, s: State, force: bool)
  {
    var out := run(at, s, force);
    && StartsWithRead(out.calls)
    && (out.result.Ok? ==> Created(out.calls) == Creations(s, NamespaceSlot, force, ReadsAnswered(reply, at, out.calls)))
  }

  ghost predicate RunQuiet(run: Runner, at: nat, s: State)
  {
    Current(s) ==> run(at, s, false) == Trace(Ok(s), [])
  }

  ghost predicate RunsHonor(run: Runner, reply: Replies)
  {
    && (forall at: nat, s: State, force: bool :: RunUpToDate(run, at, s, force))
    && (forall at: nat, s: State, force: bool :: RunReads(run, at, s, force))
    && (forall at: nat, s: State, force: bool :: RunCreates(run, at, s, force))
    && (forall at: nat, s: State, force: bool :: RunRecreates(run, at, s, force))
    && (forall at: nat, s: State, force: bool :: RunValidated(run, reply, at, s, force))
    && (forall at: nat, s: State, force: bool :: RunCreated(run, reply, at, s, force))
    && (forall at: nat, s: State :: RunQuiet(run, at, s))
  }

  /** Steps that keep their contract make session steps that keep theirs. */
  lemma AllSessionsHonor(reply: Replies, step: Stepper)
    requires StepsHonor(step, reply)
    ensures RunsHonor(AllSessions(step), reply)
  {
    var run := AllSessions(step);
    forall at: nat, s: State, force: bool
      ensures RunUpToDate(run, at, s, force) && RunReads(run, at, s, force)
      ensures RunCreates(run, at, s, force) && RunRecreates(run, at, s, force)
      ensures RunValidated(run, reply, at, s, force) && RunCreated(run, reply, at, s, force)
    {
      SessionsUpToDate(step, at, s, NamespaceSlot, force);
      SessionsReads(step, at, s, NamespaceSlot, force);
      SessionsCreates(step, at, s, NamespaceSlot, force);
      SessionsRecreate(step, at, s, NamespaceSlot, force);
      SessionsValidated(reply, step, at, s, NamespaceSlot, force);
      SessionsCreated(reply, step, at, s, NamespaceSlot, force);
    }
    forall at: nat, s: State
      ensures RunQuiet(run, at, s)
    {
      if Current(s) {
        SessionsQuiet(step, at, s);
      }
    }
  }

  /** What `create_command` does with the record `s` it read: measure, then
      run the session steps (`AllSessions`: the namespace with the caller's
      `force`, the primary session with `force` or version drift, the
      secondary session with the primary's flag or its own drift). `Ok`
      carries the record that is written back; a failed step aborts the
      command. */
  function Create(reply: Replies, at: nat, run: Runner, s: State, force: bool): (out: Trace<State>)
  {
    AfterMeasure(Measured(reply, at, s, force, Pipeline), run, at, force)
  }

  /** The rest of a command once its measurement step gave `m`. */
  function AfterMeasure(m: Trace<State>, run: Runner, at: nat, force: bool): (out: Trace<State>)
  {
    if !m.result.Ok? then Trace(Abort(m.result, MrenclaveMissing), m.calls)
    else Then(m.calls, run(at + |m.calls|, m.result.value, force))
  }

  /** `create_command` as written: its measurement reports the status of
      `tr`, the last command of the pipeline, instead of docker's. */
  function CreateAsWritten(reply: Replies, at: nat, run: Runner, s: State, force: bool): (out: Trace<State>)
  {
    AfterMeasure(Measured(reply, at, s, force, PipelineAsWritten), run, at, force)
  }

  /** As written, a `docker run` that fails is taken for a measurement that
      printed nothing: the record's measurement is set to the empty string
      and the command goes on to the session steps with that record. With
      docker's own status the same reply is an error and the command aborts
      after the measurement. */
  lemma {:induction false} FailedMeasurementMasked(reply: Replies, at: nat, run: Runner, s: State, force: bool)
    requires |s.mrenclave| == 0 || force
    requires reply(at, Measure(Str(s.otp_image), Str(s.otp_binary))) == Outcome(false, "")
    ensures Measurement(StateCodec(), reply, at, s, MrenclaveField, ImageField, BinaryField, force,
                        PipelineAsWritten).result == Ok(s.(mrenclave := ""))
    ensures Measurement(StateCodec(), reply, at, s, MrenclaveField, ImageField, BinaryField, force,
                        Pipeline).result == Err(MrEnclaveFailed)
    ensures CreateAsWritten(reply, at, run, s, force)
            == Then([Measure(Str(s.otp_image), Str(s.otp_binary))], run(at + 1, s.(mrenclave := ""), force))
    ensures Create(reply, at, run, s, force)
            == Trace(Panic(MrenclaveMissing), [Measure(Str(s.otp_image), Str(s.otp_binary))])
  {
    var c := Measure(Str(s.otp_image), Str(s.otp_binary));
    FailedMeasurement(reply, at, s, force);
    assert Measurement(StateCodec(), reply, at, s, MrenclaveField, ImageField, BinaryField, force,
                       PipelineAsWritten).result == Ok(s.(mrenclave := "")) by {
      MeasurementOfState(reply, at, s, force, PipelineAsWritten);
    }
    assert Measurement(StateCodec(), reply, at, s, MrenclaveField, ImageField, BinaryField, force,
                       Pipeline).result == Err(MrEnclaveFailed) by {
      MeasurementOfState(reply, at, s, force, Pipeline);
    }
    assert CreateAsWritten(reply, at, run, s, force) == Then([c], run(at + 1, s.(mrenclave := ""), force));
  }

  /** The measurement step on a `docker run` that failed and printed nothing. */
  lemma FailedMeasurement(reply: Replies, at: nat, s: State, force: bool)
    requires |s.mrenclave| == 0 || force
    requires reply(at, Measure(Str(s.otp_image), Str(s.otp_binary))) == Outcome(false, "")
    ensures Measured(reply, at, s, force, PipelineAsWritten)
            == Trace(Ok(s.(mrenclave := "")), [Measure(Str(s.otp_image), Str(s.otp_binary))])
    ensures Measured(reply, at, s, force, Pipeline)
            == Trace(Err(MrEnclaveFailed), [Measure(Str(s.otp_image), Str(s.otp_binary))])
  {
    assert DeleteSpace("") == "";
  }

  /** What the measurement step of a command on `s` gives: no session
      command, and at most a new measurement in the record. */
  ghost predicate MeasurementOnly(m: Trace<State>, s: State)
  {
    && Reads(m.calls) == [] && Creates(m.calls) == 0
    && (m.result.Ok? ==> m.result.value == s.(mrenclave := m.result.value.mrenclave))
  }

  lemma {:induction false} AfterMeasureReads(m: Trace<State>, run: Runner, at: nat, s: State, force: bool)
    requires MeasurementOnly(m, s)
    requires m.result.Ok? ==> RunReads(run, at + |m.calls|, m.result.value, force)
    ensures var out := AfterMeasure(m, run, at, force);
            && Reads(out.calls) <= Planned(s, NamespaceSlot, force)
            && (out.result.Ok? ==> Reads(out.calls) == Planned(s, NamespaceSlot, force))
  {
    if m.result.Ok? {
      var rest := run(at + |m.calls|, m.result.value, force);
      assert AfterMeasure(m, run, at, force).calls == m.calls + rest.calls;
      PlanAfterMeasure(s, m.result.value.mrenclave, force);
      assert Planned(m.result.value, NamespaceSlot, force) == Planned(s, NamespaceSlot, force);
      ReadsAfterNone(m.calls, rest.calls);
    }
  }

  lemma {:induction false} AfterMeasureCreates(m: Trace<State>, run: Runner, at: nat, s: State, force: bool)
    requires MeasurementOnly(m, s)
    requires m.result.Ok? ==> RunCreates(run, at + |m.calls|, m.result.value, force)
    ensures var out := AfterMeasure(m, run, at, force);
            Creates(out.calls) <= |Reads(out.calls)|
  {
    if m.result.Ok? {
      var rest := run(at + |m.calls|, m.result.value, force);
      CreatesAppend(m.calls, rest.calls);
      ReadsAfterNone(m.calls, rest.calls);
    }
  }

  lemma {:induction false} AfterMeasureRecreates(m: Trace<State>, run: Runner, at: nat, s: State, force: bool)
    requires MeasurementOnly(m, s)
    requires m.result.Ok? ==> RunRecreates(run, at + |m.calls|, m.result.value, force)
    ensures var out := AfterMeasure(m, run, at, force);
            out.result.Ok? ==> Recreated(s, NamespaceSlot, force) <= Creates(out.calls)
  {
    if m.result.Ok? {
      PlanAfterMeasure(s, m.result.value.mrenclave, force);
      CreatesAppend(m.calls, run(at + |m.calls|, m.result.value, force).calls);
    }
  }

  lemma {:induction false} AfterMeasureCreated(reply: Replies, m: Trace<State>, run: Runner, at: nat, s: State,
                                               force: bool)
    requires MeasurementOnly(m, s)
    requires |m.calls| <= 1 && (|m.calls| == 1 ==> m.calls[0].Measure?)
    requires m.result.Ok? ==> RunCreated(run, reply, at + |m.calls|, m.result.value, force)
    ensures var out := AfterMeasure(m, run, at, force);
            out.result.Ok? ==> Created(out.calls) == Creations(s, NamespaceSlot, force, ReadsAnswered(reply, at, out.calls))
  {
    if m.result.Ok? {
      var at' := at + |m.calls|;
      var rest := run(at', m.result.value, force);
      assert AfterMeasure(m, run, at, force) == Then(m.calls, rest);
      MeasuredPrefix(reply, at, m.calls, rest.calls);
      CreationsAgree(m.result.value, s, NamespaceSlot, force, ReadsAnswered(reply, at', rest.calls));
    }
  }

  /** The measurement step issues at most the one measurement, and no
      session command. */
  lemma {:induction false} MeasureCommands(reply: Replies, at: nat, s: State, force: bool)
    ensures var m := Measured(reply, at, s, force, Pipeline);
            && Reads(m.calls) == [] && Creates(m.calls) == 0
            && Measures(m.calls) == (if |s.mrenclave| == 0 || force then 1 else 0)
            && CommitsValidated(reply, at, m.calls)
  {
    var m := Measured(reply, at, s, force, Pipeline);
    if |m.calls| == 1 {
      Counts(m.calls[0], m.calls[0]);
    }
  }

  /** A command either aborts or hands back the record to be written: both
      sessions created for the current volume version, and the names, the
      volume version, the image, the account and the secret as they were. */
  lemma {:induction false} CreateUpToDate(reply: Replies, at: nat, run: Runner, s: State, force: bool)
    requires RunsHonor(run, reply)
    ensures var out := Create(reply, at, run, s, force);
            && (out.result.Ok? || out.result.Panic?)
            && (out.result.Ok? ==>
                  var r := out.result.value;
                  r.session_version == r.session_version2 == r.volume_version && SameIdentity(s, r))
  {
    var m := Measured(reply, at, s, force, Pipeline);
    if m.result.Ok? {
      assert RunUpToDate(run, at + |m.calls|, m.result.value, force);
    }
  }

  /** The commands of a command, in order: the measurement comes first and
      happens exactly when the record has none or the command is forced; no
      other measurement follows; every create follows a successful check of
      the same document. */
  lemma {:induction false} CreateCommands(reply: Replies, at: nat, run: Runner, s: State, force: bool)
    requires RunsHonor(run, reply)
    ensures var out := Create(reply, at, run, s, force);
            && Measures(out.calls) == (if |s.mrenclave| == 0 || force then 1 else 0)
            && (|s.mrenclave| == 0 || force ==>
                  |out.calls| >= 1 && out.calls[0] == Measure(Str(s.otp_image), Str(s.otp_binary)))
            && CommitsValidated(reply, at, out.calls)
  {
    var m := Measured(reply, at, s, force, Pipeline);
    MeasureCommands(reply, at, s, force);
    if m.result.Ok? {
      var rest := run(at + |m.calls|, m.result.value, force);
      assert RunValidated(run, reply, at + |m.calls|, m.result.value, force);
      MeasuresAppend(m.calls, rest.calls);
      CommitsValidatedAppend(reply, at, m.calls, rest.calls);
    }
  }

  /** A command reads the planned sessions of the record, in order: all of
      them when it succeeds, the first few when it aborts. */
  lemma {:induction false} CreateReads(reply: Replies, at: nat, run: Runner, s: State, force: bool)
    requires RunsHonor(run, reply)
    ensures var out := Create(reply, at, run, s, force);
            && Reads(out.calls) <= Planned(s, NamespaceSlot, force)
            && (out.result.Ok? ==> Reads(out.calls) == Planned(s, NamespaceSlot, force))
  {
    var m := Measured(reply, at, s, force, Pipeline);
    MeasureCommands(reply, at, s, force);
    if m.result.Ok? {
      assert RunReads(run, at + |m.calls|, m.result.value, force);
    }
    AfterMeasureReads(m, run, at, s, force);
  }

  /** A command creates no more sessions than it reads, so at most one per
      planned read. */
  lemma {:induction false} CreateCreates(reply: Replies, at: nat, run: Runner, s: State, force: bool)
    requires RunsHonor(run, reply)
    ensures var out := Create(reply, at, run, s, force);
            Creates(out.calls) <= |Reads(out.calls)| <= |Planned(s, NamespaceSlot, force)|
  {
    CreateReads(reply, at, run, s, force);
    var m := Measured(reply, at, s, force, Pipeline);
    MeasureCommands(reply, at, s, force);
    if m.result.Ok? {
      assert RunCreates(run, at + |m.calls|, m.result.value, force);
    }
    AfterMeasureCreates(m, run, at, s, force);
  }

  /** A command that succeeds creates at least one session per forced step. */
  lemma {:induction false} CreateRecreates(reply: Replies, at: nat, run: Runner, s: State, force: bool)
    requires RunsHonor(run, reply)
    ensures var out := Create(reply, at, run, s, force);
            out.result.Ok? ==> Recreated(s, NamespaceSlot, force) <= Creates(out.calls)
  {
    var m := Measured(reply, at, s, force, Pipeline);
    MeasureCommands(reply, at, s, force);
    if m.result.Ok? {
      assert RunRecreates(run, at + |m.calls|, m.result.value, force);
    }
    AfterMeasureRecreates(m, run, at, s, force);
  }

  /** A command that succeeds has created exactly the sessions that the
      answers to its reads call for: each session it read whose step was
      forced or whose read was refused, in order. */
  lemma {:induction false} CreateCreated(reply: Replies, at: nat, run: Runner, s: State, force: bool)
    requires RunsHonor(run, reply)
    ensures var out := Create(reply, at, run, s, force);
            out.result.Ok? ==> Created(out.calls) == Creations(s, NamespaceSlot, force, ReadsAnswered(reply, at, out.calls))
  {
    var m := Measured(reply, at, s, force, Pipeline);
    MeasureCommands(reply, at, s, force);
    if m.result.Ok? {
      assert RunCreated(run, reply, at + |m.calls|, m.result.value, force);
    }
    AfterMeasureCreated(reply, m, run, at, s, force);
  }

  /** An unforced command on a record with no version drift that succeeds
      creates exactly the sessions it read whose read was refused, in order,
      and recreates none that could be read. */
  lemma {:induction false} CreateSteady(reply: Replies, at: nat, run: Runner, s: State)
    requires RunsHonor(run, reply)
    requires s.session_version == s.volume_version && s.session_version2 == s.volume_version
    ensures var out := Create(reply, at, run, s, false);
            out.result.Ok? ==> Created(out.calls) == Refused(Reads(out.calls), ReadsAnswered(reply, at, out.calls))
  {
    var out := Create(reply, at, run, s, false);
    CreateReads(reply, at, run, s, false);
    CreateCreated(reply, at, run, s, false);
    CreationsSteady(s, NamespaceSlot, ReadsAnswered(reply, at, out.calls));
  }

  /** A forced command that succeeds measures first, reads the namespace and
      both sessions in that order and creates all three, each once, in that
      order. */
  lemma {:induction false} CreateForced(reply: Replies, at: nat, run: Runner, s: State)
    requires RunsHonor(run, reply)
    ensures var out := Create(reply, at, run, s, true);
            out.result.Ok? ==>
              && |out.calls| >= 1 && out.calls[0] == Measure(Str(s.otp_image), Str(s.otp_binary))
              && Reads(out.calls) == [s.namespace, s.session, s.session2]
              && Creates(out.calls) == 3
              && Created(out.calls) == [s.namespace, s.session, s.session2]
  {
    var out := Create(reply, at, run, s, true);
    CreateCreated(reply, at, run, s, true);
    CreationsForced(s, NamespaceSlot, true, ReadsAnswered(reply, at, out.calls));
    CreateCommands(reply, at, run, s, true);
    CreateReads(reply, at, run, s, true);
    CreateCreates(reply, at, run, s, true);
    CreateRecreates(reply, at, run, s, true);
    PlannedForced(s, NamespaceSlot, true);
  }

  /** A command that succeeds on a record with version drift recreates: with
      drift on the primary session, the primary and the secondary are read
      last and are the last two sessions created; with drift on the secondary
      session, the secondary is read last and is the last session created. */
  lemma {:induction false} CreateDrift(reply: Replies, at: nat, run: Runner, s: State, force: bool)
    requires RunsHonor(run, reply)
    ensures var out := Create(reply, at, run, s, force);
            var names := Reads(out.calls);
            var created := Created(out.calls);
            && (out.result.Ok? && s.session_version != s.volume_version ==>
                  && |names| >= 2 && names[|names| - 2..] == [s.session, s.session2] && Creates(out.calls) >= 2
                  && |created| >= 2 && created[|created| - 2..] == [s.session, s.session2])
            && (out.result.Ok? && s.session_version2 != s.volume_version ==>
                  && |names| >= 1 && names[|names| - 1] == s.session2 && Creates(out.calls) >= 1
                  && |created| >= 1 && created[|created| - 1] == s.session2)
  {
    DriftRead(reply, at, run, s, force);
    DriftCreated(reply, at, run, s, force);
  }

  /** The reads and creates of `CreateDrift`. */
  lemma {:induction false} DriftRead(reply: Replies, at: nat, run: Runner, s: State, force: bool)
    requires RunsHonor(run, reply)
    ensures var out := Create(reply, at, run, s, force);
            var names := Reads(out.calls);
            && (out.result.Ok? && s.session_version != s.volume_version ==>
                  |names| >= 2 && names[|names| - 2..] == [s.session, s.session2] && Creates(out.calls) >= 2)
            && (out.result.Ok? && s.session_version2 != s.volume_version ==>
                  |names| >= 1 && names[|names| - 1] == s.session2 && Creates(out.calls) >= 1)
  {
    CreateReads(reply, at, run, s, force);
    CreateRecreates(reply, at, run, s, force);
    PlannedDrift(s, force);
  }

  /** The sessions `CreateDrift` has created. */
  lemma {:induction false} DriftCreated(reply: Replies, at: nat, run: Runner, s: State, force: bool)
    requires RunsHonor(run, reply)
    ensures var out := Create(reply, at, run, s, force);
            var created := Created(out.calls);
            && (out.result.Ok? && s.session_version != s.volume_version ==>
                  |created| >= 2 && created[|created| - 2..] == [s.session, s.session2])
            && (out.result.Ok? && s.session_version2 != s.volume_version ==>
                  |created| >= 1 && created[|created| - 1] == s.session2)
  {
    var out := Create(reply, at, run, s, force);
    CreateCreated(reply, at, run, s, force);
    CreationsDrift(s, force, ReadsAnswered(reply, at, out.calls));
  }

  /** The first command on a fresh record measures the QR code generator and
      cannot succeed without reading the namespace and both sessions, in that
      order; when it succeeds it has created each of them whose read was
      refused, or all three when forced. */
  lemma {:induction false} FirstRun(reply: Replies, at: nat, run: Runner, v: Variant, ns: string, user: string,
                                    secret: string, force: bool)
    requires RunsHonor(run, reply)
    ensures var s := NewState(v, ns, user, secret);
            var out := Create(reply, at, run, s, force);
            && |out.calls| >= 1 && out.calls[0] == Measure(Str(s.otp_image), Str(s.otp_binary))
            && (out.result.Ok? ==> Reads(out.calls) == [ns, ns + SessionSuffix(v), ns + ResetSuffix(v)])
            && (out.result.Ok? ==>
                  Created(out.calls)
                  == if force then Reads(out.calls) else Refused(Reads(out.calls), ReadsAnswered(reply, at, out.calls)))
  {
    var s := NewState(v, ns, user, secret);
    if force {
      CreateForced(reply, at, run, s);
    } else {
      CreateSteady(reply, at, run, s);
    }
    CreateCommands(reply, at, run, s, force);
    CreateReads(reply, at, run, s, force);
    PlannedFresh(s, NamespaceSlot, force);
  }

  /** A command on an up-to-date record that is not forced issues no command
      at all and hands back the record unchanged, to be written back as it is. */
  lemma {:induction false} RetryIsQuiet(reply: Replies, at: nat, run: Runner, s: State)
    requires RunsHonor(run, reply)
    requires Current(s)
    ensures Create(reply, at, run, s, false) == Trace(Ok(s), [])
  {
    assert RunQuiet(run, at, s);
  }
}

/** The two commands of the policy tools that change the remote store:
    `create_command` and `roll_forward`, with the policy templates, the state
    file and the working directory they act on. */
module Commands {
  import opened Results
  import opened SconeCli
  import opened PolicyFiles
  import opened Policies

  /** The single-use marker of the QR code generator and the metadata of the
      volume it lives in; `roll_forward` removes both. */
  const OnceFile := "single_run/once"
  const VolumeFile := "single_run/volume.fspf"

  /** The session templates a command uses: built in for the OTP tool, read
      from the policy set for the cosign tool. */
  function PolicyTemplates(v: Variant, files: Dir): (r: Result<Templates>)
    ensures r.Ok? || r.Panic?
    ensures v.Otp? ==> r == Ok(v.templates)
    ensures v.Cosign? ==> r == ReadPolicies(files, v.prefix)
  {
    match v
    case Otp(t) => Ok(t)
    case Cosign(prefix) => ReadPolicies(files, prefix)
  }

  /** The markers are no policy files, so removing them leaves the templates
      as they were. */
  lemma MarkersAreNoPolicies(v: Variant, files: Dir)
    ensures PolicyTemplates(v, files - {OnceFile, VolumeFile}) == PolicyTemplates(v, files)
  {
    if v.Cosign? {
      var p := v.prefix;
      var n, a, r := NamespaceFile(p), AdminFile(p), RemoteFile(p);
      assert n[|n| - 1] == 'l' && a[|a| - 1] == 'l' && r[|r| - 1] == 'l';
      assert OnceFile[|OnceFile| - 1] == 'e' && VolumeFile[|VolumeFile| - 1] == 'f';
    }
  }

  /** The sessions of a command, reconciled by `create_session` against the
      outside world `reply` from the templates `t`. */
  function Reconciliation(reply: Replies, render: Renderer, t: Templates): Runner
  {
    AllSessions(SessionSteps(Session(reply, render, Encode), t))
  }

  /** Whatever the outside world replies and however templates render, the
      sessions of a command keep the contract the command relies on. */
  lemma ReconciliationHonors(reply: Replies, render: Renderer, t: Templates)
    ensures RunsHonor(Reconciliation(reply, render, t), reply)
  {
    SessionHonors(reply, render, Encode);
    SessionStepsHonor(reply, Session(reply, render, Encode), t);
    AllSessionsHonor(reply, SessionSteps(Session(reply, render, Encode), t));
  }

  /** What `create_command` does, `at` commands having been issued before it:
      the templates, then the record in `state.js` (`initial` when there is
      none, as `State::new` makes it), then measurement and the three
      sessions. `Ok` carries the record written back to `state.js`. */
  function CreateRun(reply: Replies, at: nat, v: Variant, policies: Dir,
                     stored: map<string, Stored<State>>, initial: State, render: Renderer, force: bool)
    : Trace<State>
  {
    var t := PolicyTemplates(v, policies);
    if !t.Ok? then Trace(Panic(t.reason), [])
    else
      var s := ReadState(stored, StateFile, initial);
      if !s.Ok? then Trace(Panic(s.reason), [])
      else Policies.Create(reply, at, Reconciliation(reply, render, t.value), s.value, force)
  }

  /** The process outcome of a command. */
  function Exit(r: Result<State>): (e: Result<()>)
    ensures e.Ok? <==> r.Ok?
    ensures r.Panic? ==> e == Panic(r.reason)
  {
    match r
    case Ok(_) => Ok(())
    case Err(e) => Err(e)
    case Panic(reason) => Panic(reason)
  }

  /** A command either aborts or ends with a record that is up to date for
      its volume version and keeps the stored (or fresh) record's names,
      volume version, image, account and secret. It aborts before any remote
      command when a policy file is missing or `state.js` cannot be
      deserialized. */
  lemma {:induction false} CreateRunOutcome(reply: Replies, at: nat, v: Variant, policies: Dir,
                                            stored: map<string, Stored<State>>, initial: State,
                                            render: Renderer, force: bool)
    ensures var out := CreateRun(reply, at, v, policies, stored, initial, render, force);
            var s := ReadState(stored, StateFile, initial);
            && (out.result.Ok? || out.result.Panic?)
            && (v.Cosign? && NamespaceFile(v.prefix) !in policies ==> out == Trace(Panic(NamespacePolicy), []))
            && (PolicyTemplates(v, policies).Ok? && StateFile in stored && stored[StateFile].Unparsable? ==>
                  out == Trace(Panic(CannotDeserialize(StateFile)), []))
            && (out.result.Ok? ==>
                  && s.Ok?
                  && var r := out.result.value;
                  r.session_version == r.session_version2 == r.volume_version && SameIdentity(s.value, r))
  {
    var t := PolicyTemplates(v, policies);
    var s := ReadState(stored, StateFile, initial);
    if t.Ok? && s.Ok? {
      ReconciliationHonors(reply, render, t.value);
      CreateUpToDate(reply, at, Reconciliation(reply, render, t.value), s.value, force);
    }
  }

  /** The first command in a fresh working directory (no `state.js`, or one
      that cannot be read as text) starts a new namespace: it measures the QR
      code generator first and, when it succeeds, has read the namespace and
      both of its sessions, in that order, has created each of them whose
      read was refused (all three when forced), and stores a record with the
      fresh names, user and secret. */
  lemma {:induction false} FirstCommand(reply: Replies, at: nat, v: Variant, policies: Dir,
                                        stored: map<string, Stored<State>>, ns: string, user: string,
                                        secret: string, render: Renderer, force: bool)
    requires StateFile !in stored || stored[StateFile].Unreadable?
    requires PolicyTemplates(v, policies).Ok?
    ensures var out := CreateRun(reply, at, v, policies, stored, NewState(v, ns, user, secret), render, force);
            && |out.calls| >= 1 && out.calls[0].Measure?
            && (out.result.Ok? ==>
                  && Reads(out.calls) == [ns, ns + SessionSuffix(v), ns + ResetSuffix(v)]
                  && Created(out.calls)
                     == (if force then Reads(out.calls) else Refused(Reads(out.calls), ReadsAnswered(reply, at, out.calls)))
                  && SameIdentity(NewState(v, ns, user, secret), out.result.value))
  {
    var t := PolicyTemplates(v, policies).value;
    var run := Reconciliation(reply, render, t);
    ReconciliationHonors(reply, render, t);
    FirstRun(reply, at, run, v, ns, user, secret, force);
    CreateUpToDate(reply, at, run, NewState(v, ns, user, secret), force);
  }

  /** Running the command again without `force` on an up-to-date record
      issues no remote command and writes the record back unchanged. */
  lemma {:induction false} RepeatedCommand(reply: Replies, at: nat, v: Variant, policies: Dir,
                                           stored: map<string, Stored<State>>, initial: State, s: State,
                                           render: Renderer)
    requires PolicyTemplates(v, policies).Ok?
    requires ReadState(stored, StateFile, initial) == Ok(s)
    requires Current(s)
    ensures CreateRun(reply, at, v, policies, stored, initial, render, false) == Trace(Ok(s), [])
  {
    var t := PolicyTemplates(v, policies).value;
    ReconciliationHonors(reply, render, t);
    RetryIsQuiet(reply, at, Reconciliation(reply, render, t), s);
  }

  /** An unforced command on a stored record with no version drift creates
      exactly the sessions it read whose read was refused, in order: a
      session that can be read is never recreated. */
  lemma {:induction false} SteadyCommand(reply: Replies, at: nat, v: Variant, policies: Dir,
                                         stored: map<string, Stored<State>>, initial: State, s: State,
                                         render: Renderer)
    requires PolicyTemplates(v, policies).Ok?
    requires ReadState(stored, StateFile, initial) == Ok(s)
    requires s.session_version == s.volume_version && s.session_version2 == s.volume_version
    ensures var out := CreateRun(reply, at, v, policies, stored, initial, render, false);
            out.result.Ok? ==> Created(out.calls) == Refused(Reads(out.calls), ReadsAnswered(reply, at, out.calls))
  {
    var t := PolicyTemplates(v, policies).value;
    ReconciliationHonors(reply, render, t);
    CreateSteady(reply, at, Reconciliation(reply, render, t), s);
  }

  /** The record `roll_forward` stores before it updates the sessions: the
      volume version is raised (wrapping like a release build's `u64`) and
      the secret replaced; nothing else changes. */
  function Rolled(s: State, secret: string): (r: State)
    ensures r.volume_version != s.volume_version
    ensures s.volume_version as int < U64Limit - 1 ==> r.volume_version as int == s.volume_version as int + 1
    ensures r.secret == secret
    ensures r == s.(volume_version := r.volume_version, secret := secret)
  {
    s.(volume_version := Increment(s.volume_version), secret := secret)
  }

  /** After a roll forward of a record whose sessions were up to date, even
      an unforced command recreates the primary and the secondary session:
      they are read last and created last, in that order. It stores a record
      that carries the new secret and whose sessions are up to date for the
      new volume version. */
  lemma {:induction false} RolledRecordRecreates(reply: Replies, at: nat, v: Variant, policies: Dir,
                                                 stored: map<string, Stored<State>>, initial: State, s: State,
                                                 secret: string, render: Renderer, force: bool)
    requires PolicyTemplates(v, policies).Ok?
    requires s.session_version == s.volume_version && s.session_version2 == s.volume_version
    ensures var out := CreateRun(reply, at, v, policies, stored[StateFile := Parsed(Rolled(s, secret))],
                                 initial, render, force);
            var names := Reads(out.calls);
            var created := Created(out.calls);
            out.result.Ok? ==>
              && |names| >= 2 && names[|names| - 2..] == [s.session, s.session2] && Creates(out.calls) >= 2
              && |created| >= 2 && created[|created| - 2..] == [s.session, s.session2]
              && var r := out.result.value;
              && r.secret == secret && r.volume_version == Rolled(s, secret).volume_version
              && r.session_version == r.session_version2 == r.volume_version
  {
    var t := PolicyTemplates(v, policies).value;
    var run := Reconciliation(reply, render, t);
    var rolled := Rolled(s, secret);
    assert ReadState(stored[StateFile := Parsed(rolled)], StateFile, initial) == Ok(rolled);
    ReconciliationHonors(reply, render, t);
    CreateDrift(reply, at, run, rolled, force);
    CreateUpToDate(reply, at, run, rolled, force);
  }

  /** A roll forward as the command line allows it, with `--force`, recreates
      all three sessions, in order, when it succeeds. */
  lemma {:induction false} ForcedRollRecreatesAll(reply: Replies, at: nat, v: Variant, policies: Dir,
                                                  stored: map<string, Stored<State>>, initial: State, s: State,
                                                  secret: string, render: Renderer)
    requires PolicyTemplates(v, policies).Ok?
    ensures var out := CreateRun(reply, at, v, policies, stored[StateFile := Parsed(Rolled(s, secret))],
                                 initial, render, true);
            out.result.Ok? ==>
              && Reads(out.calls) == [s.namespace, s.session, s.session2] && Creates(out.calls) == 3
              && Created(out.calls) == [s.namespace, s.session, s.session2]
  {
    var t := PolicyTemplates(v, policies).value;
    var rolled := Rolled(s, secret);
    assert ReadState(stored[StateFile := Parsed(rolled)], StateFile, initial) == Ok(rolled);
    ReconciliationHonors(reply, render, t);
    CreateForced(reply, at, Reconciliation(reply, render, t), rolled);
  }

  /** `reconcile` is `create_session` against `reply`, rendering with
      `render` the JSON proxy of the record it is handed. */
  ghost predicate IsSession(reconcile: Reconciler<State>, reply: Replies, render: Renderer)
  {
    forall at: nat, name: string, hash: string, template: string, x: State, force: bool
      {:trigger Reconcile(reply, at, name, hash, template, Encode(x), force, render)}
      :: reconcile(at, name, hash, template, x, force) == Reconcile(reply, at, name, hash, template, Encode(x), force, render)
  }

  /** One step of `create_command`: `create_session` on the slot's session
      with the record's JSON proxy, `expect` on its result, and the hash (and
      for a session its version) stored in the record. */
  method ReconcileSlot(remote: Remote, ghost reconcile: Reconciler<State>, t: Templates, slot: Slot, s: State,
                       force: bool, render: Renderer)
    returns (r: Result<State>)
    requires IsSession(reconcile, remote.reply, render)
    modifies remote
    ensures var out := Step(reconcile, t, |old(remote.calls)|, slot, s, force);
            r == out.result && remote.calls == old(remote.calls) + out.calls
  {
    var hash := CreateSession(remote, SessionName(s, slot), SessionHash(s, slot), SlotTemplate(t, slot),
                              Encode(s), force, render);
    if hash.Ok? {
      r := Ok(Record(s, slot, hash.value));
    } else {
      r := Abort(hash, SlotMessage(slot));
    }
  }

  /** The session steps of a command apply `Step`. */
  lemma StepApplied(reconcile: Reconciler<State>, t: Templates, at: nat, slot: Slot, s: State, force: bool)
    ensures SessionSteps(reconcile, t)(at, slot, s, force) == Step(reconcile, t, at, slot, s, force)
  {
  }

  /** The measurement and then the session steps. */
  lemma CreateUnfold(reply: Replies, at: nat, run: Runner, s: State, force: bool)
    ensures var m := Measured(reply, at, s, force, Pipeline);
            Policies.Create(reply, at, run, s, force)
            == if !m.result.Ok? then Trace(Abort(m.result, MrenclaveMissing), m.calls)
               else Then(m.calls, run(at + |m.calls|, m.result.value, force))
  {
  }

  /** The session steps of `create_command` from `slot` on: each step runs
      with the flag of the one before it or its own version drift, and the
      first step that fails ends the command. */
  method UpdateSessions(remote: Remote, ghost reconcile: Reconciler<State>, t: Templates, s: State, slot: Slot,
                        force: bool, render: Renderer)
    returns (r: Result<State>)
    requires IsSession(reconcile, remote.reply, render)
    modifies remote
    decreases Rank(slot)
    ensures var out := Sessions(SessionSteps(reconcile, t), |old(remote.calls)|, s, slot, force);
            r == out.result && remote.calls == old(remote.calls) + out.calls
  {
    ghost var before := remote.calls;
    var f := force;
    if slot == PrimarySlot {
      f := force || s.session_version != s.volume_version;
    } else if slot == SecondarySlot {
      f := force || s.session_version2 != s.volume_version;
    }
    assert f == Forced(s, slot, force);
    ghost var first := Step(reconcile, t, |before|, slot, s, f);
    SessionsUnfold(SessionSteps(reconcile, t), |before|, s, slot, force);
    StepApplied(reconcile, t, |before|, slot, s, f);
    r := ReconcileSlot(remote, reconcile, t, slot, s, f, render);
    if r.Ok? && slot != SecondarySlot {
      ghost var middle := remote.calls;
      r := UpdateSessions(remote, reconcile, t, r.value, Next(slot), f, render);
      Associative(before, first.calls, remote.calls[|middle|..]);
    }
  }

  /** `check_mrenclave` on the record, through its JSON proxy. */
  method MeasureState(remote: Remote, s: State, force: bool) returns (r: Result<State>)
    modifies remote
    ensures var out := Measured(remote.reply, |old(remote.calls)|, s, force, Pipeline);
            r == out.result && remote.calls == old(remote.calls) + out.calls
  {
    MeasurementOfState(remote.reply, |remote.calls|, s, force, Pipeline);
    r := CheckMrenclave(remote, StateCodec(), s, MrenclaveField, ImageField, BinaryField, force);
  }

  /** The session steps of `create_command`, from the namespace session on,
      with the JSON proxy of the record rendered into each template. */
  method ReconcileSessions(remote: Remote, t: Templates, s: State, force: bool, render: Renderer)
    returns (r: Result<State>)
    modifies remote
    ensures var out := Reconciliation(remote.reply, render, t)(|old(remote.calls)|, s, force);
            r == out.result && remote.calls == old(remote.calls) + out.calls
  {
    r := UpdateSessions(remote, Session(remote.reply, render, Encode), t, s, NamespaceSlot, force, render);
  }

  /** The part of `create_command` after the record is read: measure it,
      reconcile the sessions, the first failure ending it. */
  method Reconciled(remote: Remote, t: Templates, s: State, render: Renderer, force: bool)
    returns (r: Result<State>)
    modifies remote
    ensures var out := Policies.Create(remote.reply, |old(remote.calls)|, Reconciliation(remote.reply, render, t),
                                       s, force);
            r == out.result && remote.calls == old(remote.calls) + out.calls
  {
    ghost var before := remote.calls;
    ghost var run := Reconciliation(remote.reply, render, t);
    ghost var m := Measured(remote.reply, |before|, s, force, Pipeline);
    CreateUnfold(remote.reply, |before|, run, s, force);
    var measured := MeasureState(remote, s, force);
    if !measured.Ok? {
      return Abort(measured, MrenclaveMissing);
    }
    ghost var rest := run(|before| + |m.calls|, measured.value, force);
    r := ReconcileSessions(remote, t, measured.value, force, render);
    assert remote.calls == (before + m.calls) + rest.calls;
    Associative(before, m.calls, rest.calls);
  }

  /** `create_command`: bring the sessions of the record in `state.js` up to
      date and store the record. `ns`, `user` and `secret` are what
      `State::new` would pick when there is no record yet. */
  method CreateCommand(remote: Remote, store: StateStore<State>, workdir: Workdir, v: Variant,
                       ns: string, user: string, secret: string, render: Renderer, force: bool)
    returns (exit: Result<()>)
    modifies remote, store
    ensures var out := CreateRun(remote.reply, |old(remote.calls)|, v, workdir.files, old(store.files),
                                 NewState(v, ns, user, secret), render, force);
            && exit == Exit(out.result)
            && remote.calls == old(remote.calls) + out.calls
            && store.files == (if out.result.Ok? then old(store.files)[StateFile := Parsed(out.result.value)]
                               else old(store.files))
  {
    var templates := PolicyTemplates(v, workdir.files);
    if !templates.Ok? {
      return Panic(templates.reason);
    }
    var stored := ReadState(store.files, StateFile, NewState(v, ns, user, secret));
    if !stored.Ok? {
      return Panic(stored.reason);
    }
    var r := Reconciled(remote, templates.value, stored.value, render, force);
    if r.Ok? {
      store.WriteState(r.value, StateFile);
    }
    exit := Exit(r);
  }

  /** `roll_forward`: read the record, give it the next volume version and a
      new secret and store it, remove the single-use marker and the volume of
      the enclave, and run `create_command` on the stored record. A record
      that does not deserialize aborts before anything changes. */
  method RollForward(remote: Remote, store: StateStore<State>, workdir: Workdir, v: Variant,
                     ns: string, user: string, secret: string, newSecret: string, render: Renderer, force: bool)
    returns (exit: Result<()>)
    modifies remote, store, workdir
    ensures var initial := NewState(v, ns, user, secret);
            var read := ReadState(old(store.files), StateFile, initial);
            && (!read.Ok? ==>
                  && exit == Panic(read.reason)
                  && remote.calls == old(remote.calls) && store.files == old(store.files)
                  && workdir.files == old(workdir.files))
            && (read.Ok? ==>
                  var written := old(store.files)[StateFile := Parsed(Rolled(read.value, newSecret))];
                  var out := CreateRun(remote.reply, |old(remote.calls)|, v, workdir.files, written, initial,
                                       render, force);
                  && workdir.files == old(workdir.files) - {OnceFile, VolumeFile}
                  && exit == Exit(out.result)
                  && remote.calls == old(remote.calls) + out.calls
                  && store.files == (if out.result.Ok? then written[StateFile := Parsed(out.result.value)]
                                     else written))
  {
    var stored := ReadState(store.files, StateFile, NewState(v, ns, user, secret));
    if !stored.Ok? {
      return Panic(stored.reason);
    }
    store.WriteState(Rolled(stored.value, newSecret), StateFile);
    workdir.RemoveFile(OnceFile);
    workdir.RemoveFile(VolumeFile);
    assert workdir.files == old(workdir.files) - {OnceFile, VolumeFile};
    exit := CreateCommand(remote, store, workdir, v, ns, user, secret, render, force);
  }
}

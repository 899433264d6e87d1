# Session lifecycle of the SCONE OTP and cosign policy tools

This project models the core of the scontain "Exercise" tools. These tools
keep confidential-computing sessions on a remote SCONE configuration and
attestation service up to date.

- `scone_cli` is a small library. `create_session` reconciles one named
  session against the remote store: it reads the session, verifies it, and
  then checks and creates a document rendered from a Handlebars template.
  `check_mrenclave` measures the QR-code generator image with `docker run`.
  `read_state` and `write_state` persist a record as JSON in `state.js`.
- Two policy managers build on it: the OTP tool and the cosign tool. Both
  have the same `State` record and the same `create_command`: measure, then
  reconcile the namespace, the primary and the secondary session, then
  store the record. `roll_forward` raises the volume version, replaces the
  secret and runs `create_command` again. The cosign tool reads its
  templates from a policy set of three files (`write_file`,
  `write_policies`, `read_policies`).
- `otpqr` runs inside the enclave. It reads its settings from the
  environment, refuses a second run unless `OTP_RESET` is set, leaves a
  marker file behind and writes the QR code or its URL.

## How the model is built

- **Commands and the remote store.** Every external command (`scone session
  read/verify/check/create` and the measuring `docker run`) is a `Call` on a
  `SconeCli.Remote`. A `Remote` logs the calls in order and answers each one
  with a given function of its position in the log and the call. Nothing is
  computed about the service itself. The properties hold for every reply
  function.
- **Operations.** Each operation that issues commands is a method, proved
  equal to a pure function that returns a `Trace`: the result and the
  commands issued (`Lookup`, `Commit`, `Reconcile`, `Measurement`,
  `Measured`, `Sessions`, `Create`, `CreateRun`). The properties are proved
  about those functions.
- **Layers.** `create_command` is proved against contracts of the layers
  below it: `Honors` for `create_session`, the `Steps*` predicates for one
  step of a session, and `RunsHonor` for the three session steps.
  `SessionHonors`, `SessionStepsHonor` and `AllSessionsHonor` prove that
  the concrete layers keep those contracts.
- **Which session is created.** `Created` attributes each create in a log
  to the session read last before it. `ReadsAnswered` lists, in order,
  whether each read succeeded. `Creations` says which sessions a command
  that succeeds creates, given those answers.
- **Errors.** `Result` has three outcomes. `Err` is an error the function
  returns. `Panic` is an `expect` or `unwrap` that aborts the process. Each
  `Failure` carries the program's own message text (`Results.Message`).
- **Files.** The working directory is two maps. `StateStore` holds
  `state.js` as a parsed record, as text that does not deserialize, or as a
  file that cannot be read as text.
  `Workdir` holds the policy files and the single-use marker files, each as
  text or as a file that exists but cannot be read as text.

## Model

| member | source | states |
|---|---|---|
| SconeCli.Remote.Invoke | Section_OTP/scone_cli/src/lib.rs:8-25 | running a command appends it to the log, and its outcome is the reply for that position and command |
| SconeCli.Lookup | Section_OTP/scone_cli/src/lib.rs:46-66 | the session is read first; an unreadable session gives `Ok(None)` after that single read; a readable one is verified with what the read printed; a failed verify is an error and never an abort; a successful one yields its output as the hash |
| SconeCli.LookupSession | Section_OTP/scone_cli/src/lib.rs:46-66 | the read-and-verify block returns what `Lookup` returns and issues exactly its commands |
| SconeCli.CommitSession | Section_OTP/scone_cli/src/lib.rs:67-91 | the render/check/create block returns what `Commit` returns and issues exactly its commands |
| SconeCli.CommitCommands | Section_OTP/scone_cli/src/lib.rs:67-91 | the commit reads and measures nothing; it creates at most once, and only right after a successful check of the same document; success means both commands were issued; a rendering error aborts before any command |
| SconeCli.LookupCommands | Section_OTP/scone_cli/src/lib.rs:46-66 | the lookup reads exactly its own session, creates nothing, measures nothing |
| SconeCli.ResumeCommands | Section_OTP/scone_cli/src/lib.rs:47-91 | after the lookup, a create happens at most once, and only when forced or when the session could not be read; a forced success has created |
| SconeCli.ResumeAnswers | Section_OTP/scone_cli/src/lib.rs:47-92 | after the lookup, the answer is the verified hash or what a successful create printed; an error is the lookup's error or a refusal of the last command |
| SconeCli.Reconcile | Section_OTP/scone_cli/src/lib.rs:37-96 | a known hash without `force` is returned with no remote traffic; otherwise the session is read first and at most four commands are issued |
| SconeCli.CreateSession | Section_OTP/scone_cli/src/lib.rs:37-96 | `create_session` returns what `Reconcile` returns and issues exactly its commands |
| SconeCli.ReconcileConfirms | Section_OTP/scone_cli/src/lib.rs:49-95 | a returned hash is the caller's own (fast path), or what the store printed for a successful verify or create as the last command |
| SconeCli.ReconcileRefusals | Section_OTP/scone_cli/src/lib.rs:56-90 | every returned error follows a refusal by the store: the last command issued failed |
| SconeCli.ReconcileVerifies | Section_OTP/scone_cli/src/lib.rs:49-60 | a readable session is verified; a failed verification returns an error after exactly the read and the verify; an unforced successful one returns the verified hash without checking or creating |
| SconeCli.ReconcileCreatesMissing | Section_OTP/scone_cli/src/lib.rs:61-75 | an unreadable session is created from scratch whether forced or not: the template is rendered with `predecessor_key` `#` and an empty `predecessor`, and that document is checked; a rendering error aborts after the read |
| SconeCli.ReconcileChainsPredecessor | Section_OTP/scone_cli/src/lib.rs:52-75 | a document is checked only in a forced update of a verified session, and it names the verified hash as predecessor |
| SconeCli.ReconcileReads | Section_OTP/scone_cli/src/lib.rs:40-46 | the session itself is read exactly once when the fast path is not taken, never otherwise; nothing is measured |
| SconeCli.ReconcileValidatesCommits | Section_OTP/scone_cli/src/lib.rs:75-83 | optimistic validation: every create immediately follows a successful check of the same document |
| SconeCli.ReconcileCreates | Section_OTP/scone_cli/src/lib.rs:47-91 | at most one create; only when forced or when the read failed; a forced call that succeeds has created |
| SconeCli.ReconcileCreated | Section_OTP/scone_cli/src/lib.rs:37-96 | the session is read before anything else, if at all, and only that read is answered; on success the call has created its own session exactly when it read it and was forced or the read failed, and no other session |
| SconeCli.MissingCreated | Section_OTP/scone_cli/src/lib.rs:61-91 | a session that cannot be read is created when the call succeeds, forced or not |
| SconeCli.FoundCreated | Section_OTP/scone_cli/src/lib.rs:46-91 | a session that was read is created only by a forced call, and always by a forced call that succeeds |
| SconeCli.CommitCreated | Section_OTP/scone_cli/src/lib.rs:67-91 | the commit phase answers no read and creates at most once, for the session read before it; success means it created |
| SconeCli.ReconcilePanics | Section_OTP/scone_cli/src/lib.rs:74 | the only abort is the rendering error, and it happens before any check or create |
| SconeCli.SessionHonors | Section_OTP/scone_cli/src/lib.rs:37-96 | `create_session` keeps the contract its callers rely on (`Honors`, including which session it creates), whatever the store replies, however templates render and however the record serializes |
| SconeCli.CommitsValidatedAppend | Section_OTP/scone_cli/src/lib.rs:75-83 | optimistic validation of two consecutive runs of commands carries over to their concatenation |
| SconeCli.DeleteSpace | Section_OTP/scone_cli/src/lib.rs:112 | `tr -d '[:space:]'` leaves no white space, never lengthens, and leaves text without white space unchanged |
| SconeCli.PipelineAsWritten | Section_OTP/scone_cli/src/lib.rs:112-113 | the pipeline as written always reports success, with the white space stripped from docker's output |
| SconeCli.Pipeline | Section_OTP/scone_cli/src/lib.rs:112-121 | the pipeline reports success exactly when `docker run` succeeded; its output is docker's output with the white space removed, so it holds none |
| SconeCli.Measurement | Section_OTP/scone_cli/src/lib.rs:108-125 | on the JSON proxy: an empty `mrenclave` field or `force` triggers exactly one measurement of the proxy's image and binary, otherwise the record is returned untouched and nothing runs; an error means the pipeline failed; on success the record is the proxy with the new measurement, deserialized |
| SconeCli.CheckMrenclave | Section_OTP/scone_cli/src/lib.rs:108-125 | `check_mrenclave` returns what `Measurement` returns, with docker's own status, and issues exactly its command |
| SconeCli.ReadState | Section_OTP/scone_cli/src/lib.rs:140-148 | a missing file, or one that cannot be read as text, gives the initial record; a readable file gives its record exactly when it deserializes and aborts otherwise; never an `Err` |
| SconeCli.StateStore.WriteState | Section_OTP/scone_cli/src/lib.rs:134-138 | the file holds the serialized record afterwards and no other file changes |
| SconeCli.WriteThenRead | Section_OTP/scone_cli/src/lib.rs:134-148 | reading a file just written gives the record back, and reading any other file gives what it gave before |
| Policies.Increment | Section_OTP/otp_policies/otp_policy.rs:146 | `+= 1` on a `u64` always changes the value, and adds one below the maximum |
| Policies.NewState | Section_OTP/otp_policies/otp_policy.rs:52-75 | `State::new`: the chosen namespace, user and secret; no hash or measurement known; all versions zero; three pairwise different session names, both sessions inside the namespace |
| Policies.DecodeEncode | Section_OTP/otp_policies/otp_policy.rs:33-50 | serializing a record and deserializing it gives the record back |
| Policies.DecodeMeasured | Section_OTP/scone_cli/src/lib.rs:115-116 | replacing the `mrenclave` binding of a record's proxy and deserializing changes that one field only |
| Policies.Measured | Section_OTP/otp_policies/otp_policy.rs:328 | measurement of a `State`: exactly one command, the measurement of its image and binary, exactly when its measurement is empty or forced; otherwise the record unchanged; success changes the measurement only, to the pipeline's output; an error exactly when the pipeline fails; never an abort |
| Policies.MeasurementOfState | Section_OTP/scone_cli/src/lib.rs:108-125 | the generic measurement over the JSON proxy of a `State` equals `Measured` |
| Policies.FailedMeasurementMasked | Section_OTP/scone_cli/src/lib.rs:108-125 | when `docker run` fails and prints nothing: with the pipeline as written the measurement is `Ok` with an empty `mrenclave`, and the command issues the measurement and goes on to the session steps with that record; with docker's status the measurement is an error and the command aborts with "Failed to determine MRENCLAVE" right after the measurement |
| Policies.FailedMeasurement | Section_OTP/scone_cli/src/lib.rs:112-121 | the measurement step on a failed `docker run` that printed nothing: as written, success with an empty measurement; with docker's status, an error; one command either way |
| Policies.SessionStepsHonor | Section_OTP/otp_policies/otp_policy.rs:329-339 | `create_session` followed by `expect` and storing the hash is a step that keeps every `Steps*` contract whenever `create_session` keeps its own |
| Policies.SessionsUpToDate | Section_OTP/otp_policies/otp_policy.rs:329-339 | the session steps either abort or bring both session versions up to the volume version, keeping names, measurement and identity |
| Policies.SessionsReads | Section_OTP/otp_policies/otp_policy.rs:329-337 | the session steps read a prefix of the planned sessions, in order, and all of them when they succeed |
| Policies.SessionsCreates | Section_OTP/otp_policies/otp_policy.rs:329-337 | the session steps create no more sessions than they read |
| Policies.SessionsCreated | Section_OTP/otp_policies/otp_policy.rs:329-337 | every create of the session steps belongs to a session they read; when they succeed they have created exactly `Creations` for the answers to their reads: each read session whose step was forced or whose read failed, in slot order |
| Policies.SessionsRecreate | Section_OTP/otp_policies/otp_policy.rs:331-337 | session steps that succeed create at least one session per forced step |
| Policies.SessionsValidated | Section_OTP/otp_policies/otp_policy.rs:329-337 | the session steps measure nothing, and every create follows a successful check of the same document |
| Policies.SessionsQuiet | Section_OTP/otp_policies/otp_policy.rs:329-339 | unforced steps on an up-to-date record issue nothing and return the record unchanged |
| Policies.AllSessionsHonor | Section_OTP/otp_policies/otp_policy.rs:329-339 | steps that keep their contracts make a run of the three session steps that keeps `RunsHonor` |
| Policies.PlanAgrees | Section_OTP/otp_policies/otp_policy.rs:329-337 | the planned reads and the forced count depend only on the remaining sessions' names, hashes and versions and on the volume version |
| Policies.PlannedBounds | Section_OTP/otp_policies/otp_policy.rs:329-337 | forced steps ≤ planned reads ≤ remaining sessions |
| Policies.PlannedForced | Section_OTP/otp_policies/otp_policy.rs:331-337 | a forced step hands its flag on, so every remaining session is read and forced |
| Policies.PlannedFresh | Section_OTP/otp_policies/otp_policy.rs:329-337 | when no remaining hash is known, every remaining session is read |
| Policies.PlannedDrift | Section_OTP/otp_policies/otp_policy.rs:331-337 | primary drift plans the primary and then the secondary last, with both forced; secondary drift plans the secondary last, forced |
| Policies.CreationsAgree | Section_OTP/otp_policies/otp_policy.rs:329-337 | which sessions the steps create depends only on the remaining sessions' names, hashes and versions, the volume version and the answers |
| Policies.CreationsForced | Section_OTP/otp_policies/otp_policy.rs:331-337 | forced steps create every remaining session, in order, whatever the answers |
| Policies.CreationsSteady | Section_OTP/otp_policies/otp_policy.rs:329-337 | unforced steps with no version drift create exactly the planned sessions whose read failed |
| Policies.CreationsDrift | Section_OTP/otp_policies/otp_policy.rs:331-337 | primary drift: the creations end with the primary and then the secondary session; secondary drift: they end with the secondary session |
| Policies.MeasureCommands | Section_OTP/otp_policies/otp_policy.rs:328 | the measurement step runs exactly one measurement, exactly when needed, and no session command |
| Policies.CreateUpToDate | Section_OTP/otp_policies/otp_policy.rs:326-341 | a command aborts or returns, for writing back, a record whose sessions are up to date for its volume version and whose names and identity are unchanged; it never returns a plain error |
| Policies.CreateCommands | Section_OTP/otp_policies/otp_policy.rs:328-337 | the measurement, when needed, is the first command and the only measurement; every create follows a successful check of the same document |
| Policies.CreateReads | Section_OTP/otp_policies/otp_policy.rs:328-337 | a command reads a prefix of the planned sessions, in order, and all of them when it succeeds |
| Policies.CreateCreates | Section_OTP/otp_policies/otp_policy.rs:328-337 | a command creates no more sessions than it reads, and reads no more than planned |
| Policies.CreateRecreates | Section_OTP/otp_policies/otp_policy.rs:331-337 | a command that succeeds creates at least one session per forced step |
| Policies.CreateCreated | Section_OTP/otp_policies/otp_policy.rs:328-337 | a command that succeeds has created exactly `Creations` of its record for the answers to its reads |
| Policies.CreateSteady | Section_OTP/otp_policies/otp_policy.rs:329-337 | an unforced command with no version drift that succeeds creates exactly the sessions it read whose read failed, in order; a session that could be read is never recreated |
| Policies.CreateForced | Section_OTP/otp_policies/otp_policy.rs:328-337 | a forced command that succeeds measures first, reads the namespace, the primary and the secondary session in that order, and creates each of the three once, in that order |
| Policies.CreateDrift | Section_OTP/otp_policies/otp_policy.rs:331-337 | a successful command with primary drift reads and creates the primary and then the secondary session last; with secondary drift, the secondary session is the last read and the last created |
| Policies.FirstRun | Section_OTP/otp_policies/otp_policy.rs:324-337 | on a fresh record the first command is the measurement; success means the namespace and both sessions were read in order, and each of them whose read failed was created (all three when forced) |
| Policies.RetryIsQuiet | Section_OTP/otp_policies/otp_policy.rs:326-341 | an unforced command on an up-to-date record issues nothing and writes the record back unchanged |
| PolicyFiles.PolicyFilesDistinct | Section_cosign/cossign_policies/cosign_policy.rs:213-219 | the namespace, admin and remote file names never collide, whatever the prefixes |
| PolicyFiles.PolicyFilesInjective | Section_cosign/cossign_policies/cosign_policy.rs:213-219 | different prefixes give different file names |
| PolicyFiles.Written | Section_cosign/cossign_policies/cosign_policy.rs:222-229 | after `write_file` the file holds the content as text, or its old entry when it existed and `force` was not set; every other file is unchanged |
| PolicyFiles.Workdir.WriteFile | Section_cosign/cossign_policies/cosign_policy.rs:222-229 | `write_file` leaves the directory as `Written` describes |
| PolicyFiles.Workdir.WritePolicies | Section_cosign/cossign_policies/cosign_policy.rs:213-220 | `write_policies` writes the three templates under their three names |
| PolicyFiles.ReadPolicies | Section_cosign/cossign_policies/cosign_policy.rs:231-238 | the templates are read exactly when all three files exist and hold text, and each is its file's text; a namespace file that is missing or not text aborts with "namespace policy", such an admin or remote file with "admin policy" |
| PolicyFiles.WrittenPoliciesReadBack | Section_cosign/cossign_policies/cosign_policy.rs:213-238 | generating a policy set with `force` and reading it back gives exactly the generated templates, whatever stood under those names before |
| PolicyFiles.ExistingPoliciesKept | Section_cosign/cossign_policies/cosign_policy.rs:213-238 | generating without `force` keeps existing files, fills in missing ones and touches nothing else; the set can then be read exactly when none of the existing policy files is unreadable, and gives the kept texts |
| PolicyFiles.Workdir.RemoveFile | Section_OTP/otp_policies/otp_policy.rs:154-155 | afterwards the file is absent and nothing else changed |
| Commands.PolicyTemplates | Section_cosign/cossign_policies/cosign_policy.rs:496 | the OTP tool uses its built-in templates; the cosign tool uses `read_policies` on its prefix; a failure is an abort |
| Commands.MarkersAreNoPolicies | Section_OTP/otp_policies/otp_policy.rs:154-157 | removing the single-use marker and the volume file does not change the templates a command reads |
| Commands.ReconciliationHonors | Section_cosign/cossign_policies/cosign_policy.rs:505-515 | the concrete session steps (`create_session` rendering the record's JSON proxy) keep `RunsHonor` for every reply and renderer |
| Commands.Exit | Section_cosign/cossign_policies/cosign_policy.rs:490-518 | a command exits successfully exactly when it produced a record; an abort keeps its message |
| Commands.CreateRunOutcome | Section_cosign/cossign_policies/cosign_policy.rs:490-518 | a command aborts or stores a record up to date for its volume version with the stored record's identity; a missing namespace policy or a `state.js` that does not deserialize aborts before any remote command |
| Commands.FirstCommand | Section_OTP/otp_policies/otp_policy.rs:324-341 | with no `state.js`, or one that cannot be read, the command measures first and, on success, has read the fresh namespace and both its sessions in order, has created each whose read failed (all three when forced), and stores the fresh identity |
| Commands.RepeatedCommand | Section_OTP/otp_policies/otp_policy.rs:326-341 | running it again unforced on an up-to-date stored record issues no remote command and stores the record unchanged |
| Commands.SteadyCommand | Section_OTP/otp_policies/otp_policy.rs:326-341 | an unforced command on a stored record with no version drift that succeeds creates exactly the sessions it read whose read failed |
| Commands.Rolled | Section_OTP/otp_policies/otp_policy.rs:145-149 | the volume version changes (one up below the maximum), the secret is replaced, nothing else changes |
| Commands.RolledRecordRecreates | Section_OTP/otp_policies/otp_policy.rs:142-158 | after a roll forward of an up-to-date record, even an unforced command that succeeds recreates the primary and then the secondary session: they are the last two read and the last two created; it stores the new secret with sessions at the new volume version |
| Commands.ForcedRollRecreatesAll | Section_OTP/otp_policies/otp_policy.rs:114-158 | a roll forward with `--force`, the only way the command line runs it, reads and creates the namespace, the primary and the secondary session, in that order, when it succeeds |
| Commands.ReconcileSlot | Section_OTP/otp_policies/otp_policy.rs:329-339 | one session step (`create_session`, `expect`, store the hash and version) returns what `Step` returns and issues exactly its commands |
| Commands.UpdateSessions | Section_OTP/otp_policies/otp_policy.rs:329-339 | the session steps from a slot on return what `Sessions` returns and issue exactly its commands |
| Commands.MeasureState | Section_OTP/otp_policies/otp_policy.rs:328 | `check_mrenclave` on the record returns what `Measured` returns and issues exactly its command |
| Commands.ReconcileSessions | Section_cosign/cossign_policies/cosign_policy.rs:505-515 | the three session steps return what `Reconciliation` returns and issue exactly its commands |
| Commands.Reconciled | Section_cosign/cossign_policies/cosign_policy.rs:502-515 | measurement then sessions return what `Create` returns and issue exactly its commands |
| Commands.CreateCommand | Section_cosign/cossign_policies/cosign_policy.rs:490-518 | `create_command` exits as `CreateRun` says, issues exactly its commands, and stores its record in `state.js` on success only |
| Commands.RollForward | Section_cosign/cossign_policies/cosign_policy.rs:445-461 | `roll_forward` aborts untouched on a `state.js` that does not deserialize; otherwise it stores the rolled record, removes the marker and the volume file, then behaves as `create_command` on the rolled record |
| OtpQr.GetEnv | Section_OTP/otpqr/src/main.rs:8-13 | the variable's value exactly when it is defined, otherwise the error naming it |
| OtpQr.ReadSettings | Section_OTP/otpqr/src/main.rs:16-20 | settings are read only when all five variables are defined, and they hold those values |
| OtpQr.FirstMissing | Section_OTP/otpqr/src/main.rs:16-20 | settings are read exactly when all five are defined; otherwise the error names the first missing one in reading order |
| OtpQr.QrText | Section_OTP/otpqr/src/main.rs:39-48 | with `OTP_URL` the output is `open <url>`, otherwise the SVG, each with a line end; an SVG failure is passed on |
| OtpQr.RunEffects | Section_OTP/otpqr/src/main.rs:15-50 | a successful run leaves the marker and the QR text in the output file; a run that returns an error changes files only when syncing the marker failed; a run that aborts (the output file cannot be created, or the QR code cannot be generated) has left the marker behind, so the marker is used up without a QR code; no run touches a file other than the marker and the output |
| OtpQr.RefusesWhenMarked | Section_OTP/otpqr/src/main.rs:22-27 | without `OTP_RESET` the run is refused exactly when the marker exists; with it, never for that reason |
| OtpQr.SingleUse | Section_OTP/otpqr/src/main.rs:22-36 | once a run has created the marker, whether or not it had `OTP_RESET` (as the reset session's run has), every later run without `OTP_RESET` whose settings name the same marker file (its other settings may differ) is refused and changes nothing |
| OtpQr.Disk.Create | Section_OTP/otpqr/src/main.rs:29-45 | `File::create` truncates or creates the file unless the file system refuses, and reports the refusal |
| OtpQr.Disk.Sync | Section_OTP/otpqr/src/main.rs:33-36 | `sync_all` reports the file system's refusal, if any |
| OtpQr.Disk.WriteLine | Section_OTP/otpqr/src/main.rs:41-46 | `writeln!` appends the text and a line end to the file |
| OtpQr.PrintQr | Section_OTP/otpqr/src/main.rs:15-50 | `print_qr` returns what `QrRun` returns and leaves the files it describes |
| OtpQr.ExitStatus | Section_OTP/otpqr/src/main.rs:69-75 | exit status zero exactly on success, one after an error message |

## Left out

- Shell and docker: `execute_with_docker`, `sh!` and `scone!` become `Remote.Invoke`, answered by a reply function. The docker prefix, the mounted paths and stderr are not modelled. A failure to start the shell is just a failed reply.
- Temporary files: `tmp_read_session.yml` and `tmp_rendered.yml` are not modelled. A verify gets what the read printed, and check/create get the rendered document. A failure to open the temporary file (`expect("Unable to open file")`) is not modelled.
- Handlebars: strict-mode rendering is a `Renderer` parameter that may fail. The template texts of `create_command` are not modelled; the OTP tool's built-in templates are a parameter of `Variant`.
- serde: a `State` serializes as the `Encode` map and deserializes with `Decode`. `state.js` is a `Stored` value: a record, text that does not deserialize, or a file that cannot be read as text (which `read_state` treats like a missing one). Pretty-printing and the `Default` derive are not modelled, and a serialization failure (`expect("Error serializing internal state")`) cannot happen in the model.
- Randomness and the host: `random_name(20)`, the random secret and `get_current_username` are the parameters `ns`, `user`, `secret` and `newSecret`. The 10-character fallback name is not modelled.
- File system failures: `fs::write` failing in `write_state`/`write_file` is not modelled; those writes always succeed. `create_dir_all("single_run")`/`("cosign_keys")` and ignored `remove_file` errors have no effect in the model.
- State and policy files are kept in two separate maps (`StateStore`, `Workdir`). `state.js` is never a policy file or a marker, so no interaction is lost.
- `Commands.UpdateSessions` recurses over the three slots, where `create_command` makes three straight-line calls. The steps, flags and order are the same.
- Logging (`info!`, `error!`), `usage()`, the colored error output of `otpqr` and the CLI parsing (`structopt`/`clap`) are not modelled. The `--force` requirement of roll-forward is stated by `Commands.ForcedRollRecreatesAll`.
- The other subcommands of the two tools are not modelled: `gen_qr_code`, `test_qr_code`, `add_authenticator`, `get_otp`, `gen_keypair`, `sign_image`, `verify_image`. The same goes for `to_json_value` on its own and for `print_otp.rs`.
- The authenticator library: the QR code URL and SVG are given functions (`QrCodes`); their content is not modelled.
- The file system of `otpqr`: `File::open` succeeding is modelled as the marker being present. A marker that exists but cannot be opened is not distinguished. A failing `writeln!` `unwrap` is not modelled.
- Policies.Increment: `u64` wrap-around follows a release build; a debug build would abort on overflow at the maximum version instead.
- Commands.Exit: the exit status of an abort (Rust's 101) and the printed message are not modelled for the policy tools, only the outcome.
- Commands.CreateCommand: measures with docker's own status (`SconeCli.Pipeline`), the corrected behaviour of the finding below. The command as written is `Policies.CreateAsWritten`, and `Policies.FailedMeasurementMasked` states where the two differ.
- SconeCli.CheckMrenclave: reports docker's own status for the same reason; `SconeCli.PipelineAsWritten` is the status as written. `Commands.MeasureState`, `Commands.Reconciled` and `Commands.RollForward` measure the same way.
- Concurrency: each tool runs as one sequential process. Concurrent runs against the same remote store or working directory are not modelled.

## Findings

| source | as written | input that shows it | evidently intended | confidence | as-written member | corrected member |
|---|---|---|---|---|---|---|
| Section_OTP/scone_cli/src/lib.rs:112-113 | `docker run ... \| tr -d '[:space:]'` is run by `sh` without `pipefail`, so the status checked is that of `tr`, which is zero | a record with an empty `mrenclave` (or `force`) whose `docker run` fails with no output, e.g. a missing image: the measurement becomes `""` and `create_command` goes on to render sessions with an empty MRENCLAVE | a failed `docker run` yields "Failed to determine MrEnclave" and `create_command` aborts with "Failed to determine MRENCLAVE. Does image exist?" | high, not executed | SconeCli.PipelineAsWritten, Policies.FailedMeasurementMasked | SconeCli.Pipeline |

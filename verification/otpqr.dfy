/** The `otpqr` tool run inside the enclave: it reads its settings from the
    environment, refuses to run twice unless `OTP_RESET` is set, leaves a
    marker file behind and writes the QR code (or its URL) to the output
    file. */
module OtpQr {
  import opened Results

  /** The process environment. */
  type Env = map<string, string>

  /** `get_env`: the value of a variable, or an error naming it. */
  function GetEnv(env: Env, variable: string): (r: Result<string>)
    ensures r.Ok? <==> variable in env
    ensures r.Ok? ==> r.value == env[variable]
    ensures !r.Ok? ==> r == Err(EnvUndefined(variable))
  {
    if variable in env then Ok(env[variable]) else Err(EnvUndefined(variable))
  }

  /** The variables `print_qr` requires, in the order in which it reads them. */
  const Required: seq<string> :=
    ["OTP_SINGLE_USE", "OTP_ACCOUNT_NAME", "OTP_ACCOUNT_LOGIN", "OTP_SECRET", "OTP_OUTPUT_FILE"]

  /** What the required variables hold: the single-use marker file, the
      account name and login shown by the authenticator, the secret and the
      output file. */
  datatype Settings = Settings(marker: string, name: string, login: string, secret: string, output: string)

  /** The required variables, read in order; the first one missing is the
      error. */
  function ReadSettings(env: Env): (r: Result<Settings>)
    ensures r.Ok? || r.Err?
    ensures r.Ok? ==> forall i :: 0 <= i < |Required| ==> Required[i] in env
    ensures r.Ok? ==> r.value == Settings(env[Required[0]], env[Required[1]], env[Required[2]],
                                          env[Required[3]], env[Required[4]])
  {
    var marker := GetEnv(env, "OTP_SINGLE_USE");
    if !marker.Ok? then Err(marker.error) else
    var name := GetEnv(env, "OTP_ACCOUNT_NAME");
    if !name.Ok? then Err(name.error) else
    var login := GetEnv(env, "OTP_ACCOUNT_LOGIN");
    if !login.Ok? then Err(login.error) else
    var secret := GetEnv(env, "OTP_SECRET");
    if !secret.Ok? then Err(secret.error) else
    var output := GetEnv(env, "OTP_OUTPUT_FILE");
    if !output.Ok? then Err(output.error) else
    Ok(Settings(marker.value, name.value, login.value, secret.value, output.value))
  }

  /** The settings are read exactly when every required variable is
      defined; otherwise the error names the first one, in reading order,
      that is not. */
  lemma {:induction false} FirstMissing(env: Env)
    ensures ReadSettings(env).Ok? <==> forall i :: 0 <= i < |Required| ==> Required[i] in env
    ensures ReadSettings(env).Err? ==>
              exists i :: && 0 <= i < |Required| && ReadSettings(env) == Err(EnvUndefined(Required[i]))
                          && Required[i] !in env && forall k :: 0 <= k < i ==> Required[k] in env
  {
    var i := if Required[0] !in env then 0 else if Required[1] !in env then 1
             else if Required[2] !in env then 2 else if Required[3] !in env then 3
             else if Required[4] !in env then 4 else 5;
    if i < |Required| {
      assert ReadSettings(env) == Err(EnvUndefined(Required[i]));
      assert forall k :: 0 <= k < i ==> Required[k] in env;
    }
  }

  /** What the authenticator library generates from the secret, the login and
      the account name: the URL of a QR code, or the QR code as SVG, which can
      fail with a reason. */
  datatype Generated = Generated(text: string) | Failed(why: string)
  datatype QrCodes = QrCodes(url: (string, string, string) -> string, svg: (string, string, string) -> Generated)

  /** How the file system fails: the reason why creating a file, or syncing
      it after creation, fails, for each path; `None` where it succeeds. */
  datatype Io = Io(createError: string -> Option<string>, syncError: string -> Option<string>)

  /** What the output file receives: `open <url>` when `OTP_URL` is set, the
      SVG otherwise, each followed by a line end. */
  function QrText(env: Env, s: Settings, qr: QrCodes): (g: Generated)
    ensures "OTP_URL" in env ==> g == Generated("open " + qr.url(s.secret, s.login, s.name) + "\n")
    ensures "OTP_URL" !in env && qr.svg(s.secret, s.login, s.name).Generated? ==>
              g == Generated(qr.svg(s.secret, s.login, s.name).text + "\n")
    ensures "OTP_URL" !in env && qr.svg(s.secret, s.login, s.name).Failed? ==> g == qr.svg(s.secret, s.login, s.name)
  {
    if "OTP_URL" in env then Generated("open " + qr.url(s.secret, s.login, s.name) + "\n")
    else match qr.svg(s.secret, s.login, s.name)
      case Generated(svg) => Generated(svg + "\n")
      case Failed(why) => Failed(why)
  }

  /** The outcome of a run and the files it leaves behind. */
  datatype Run = Run(result: Result<()>, files: map<string, string>)

  /** What `print_qr` does on the files `files`: read the settings; without
      `OTP_RESET`, refuse when the marker exists; create the marker and sync
      it; create the output file and write the QR text into it. Failing to
      create or sync the marker is an error; failing to create the output
      file or to generate the SVG aborts (`unwrap`). */
  function QrRun(env: Env, files: map<string, string>, io: Io, qr: QrCodes): (out: Run)
  {
    var settings := ReadSettings(env);
    if !settings.Ok? then Run(Err(settings.error), files)
    else
      var s := settings.value;
      if "OTP_RESET" !in env && s.marker in files then Run(Err(AlreadyExists(s.marker)), files)
      else if io.createError(s.marker).Some? then
        Run(Err(CreateFileFailed(s.marker, io.createError(s.marker).value)), files)
      else
        var marked := files[s.marker := ""];
        if io.syncError(s.marker).Some? then Run(Err(SyncFailed(s.marker, io.syncError(s.marker).value)), marked)
        else if io.createError(s.output).Some? then Run(Panic(Unwrapped(io.createError(s.output).value)), marked)
        else
          var created := marked[s.output := ""];
          match QrText(env, s, qr)
          case Failed(why) => Run(Panic(Unwrapped(why)), created)
          case Generated(text) => Run(Ok(()), created[s.output := text])
  }

  /** A run that succeeds leaves the marker behind and the QR text in the
      output file, and touches no other file. One that returns an error
      changes files only when syncing the marker failed. One that aborts has
      already created the marker, so the marker is used up without a QR
      code. No run changes any file but the marker and the output file. */
  lemma {:induction false} RunEffects(env: Env, files: map<string, string>, io: Io, qr: QrCodes)
    ensures var out := QrRun(env, files, io, qr);
            && (out.result.Ok? ==>
                  var s := ReadSettings(env).value;
                  && s.marker in out.files && s.output in out.files
                  && QrText(env, s, qr) == Generated(out.files[s.output])
                  && (s.marker != s.output ==> out.files[s.marker] == ""))
            && (out.files == files ||
                  (ReadSettings(env).Ok? &&
                   var s := ReadSettings(env).value;
                   && s.marker in out.files
                   && (forall f :: f != s.marker && f != s.output ==>
                         (f in out.files <==> f in files) && (f in files ==> out.files[f] == files[f]))))
            && (out.result.Err? && out.files != files ==>
                  var s := ReadSettings(env).value;
                  out.result == Err(SyncFailed(s.marker, io.syncError(s.marker).value)))
            && (out.result.Panic? ==> ReadSettings(env).Ok? && ReadSettings(env).value.marker in out.files)
  {
  }

  /** Without `OTP_RESET` the tool refuses to run exactly when the marker
      exists; with it, it never refuses for that reason. */
  lemma {:induction false} RefusesWhenMarked(env: Env, files: map<string, string>, io: Io, qr: QrCodes)
    requires ReadSettings(env).Ok?
    ensures var out := QrRun(env, files, io, qr);
            var marker := ReadSettings(env).value.marker;
            && ("OTP_RESET" !in env ==> (out.result == Err(AlreadyExists(marker)) <==> marker in files))
            && ("OTP_RESET" in env ==> out.result != Err(AlreadyExists(marker)))
  {
  }

  /** Single use: once a run got as far as creating the marker, with or
      without `OTP_RESET`, every later run that uses the same marker file and
      no `OTP_RESET` is refused and changes nothing, whatever its other
      settings. */
  lemma {:induction false} SingleUse(env: Env, files: map<string, string>, io: Io, qr: QrCodes,
                                     env': Env, io': Io, qr': QrCodes)
    requires "OTP_RESET" !in env'
    requires ReadSettings(env).Ok? && ReadSettings(env').Ok?
    requires ReadSettings(env').value.marker == ReadSettings(env).value.marker
    requires QrRun(env, files, io, qr).files != files || QrRun(env, files, io, qr).result.Ok?
    ensures var first := QrRun(env, files, io, qr);
            var marker := ReadSettings(env).value.marker;
            QrRun(env', first.files, io', qr') == Run(Err(AlreadyExists(marker)), first.files)
  {
    RunEffects(env, files, io, qr);
  }

  /** The files of the sandbox, with the way creating and syncing fail. */
  class Disk {
    var files: map<string, string>
    const io: Io

    constructor (files: map<string, string>, io: Io)
      ensures this.files == files && this.io == io
    {
      this.files := files;
      this.io := io;
    }

    /** `File::create`: an empty file, replacing any file of that name. */
    method Create(path: string) returns (err: Option<string>)
      modifies this
      ensures err == io.createError(path)
      ensures files == if err.None? then old(files)[path := ""] else old(files)
    {
      err := io.createError(path);
      if err.None? {
        files := files[path := ""];
      }
    }

    /** `sync_all` on a file just created. */
    method Sync(path: string) returns (err: Option<string>)
      ensures err == io.syncError(path)
    {
      err := io.syncError(path);
    }

    /** `writeln!` into a file just created. */
    method WriteLine(path: string, text: string)
      modifies this
      requires path in files
      ensures files == old(files)[path := old(files)[path] + text + "\n"]
    {
      files := files[path := files[path] + text + "\n"];
    }
  }

  /** `print_qr`. */
  method PrintQr(disk: Disk, env: Env, qr: QrCodes) returns (r: Result<()>)
    modifies disk
    ensures var out := QrRun(env, old(disk.files), disk.io, qr);
            r == out.result && disk.files == out.files
  {
    var marker := GetEnv(env, "OTP_SINGLE_USE");
    if !marker.Ok? {
      return Err(marker.error);
    }
    var name := GetEnv(env, "OTP_ACCOUNT_NAME");
    if !name.Ok? {
      return Err(name.error);
    }
    var login := GetEnv(env, "OTP_ACCOUNT_LOGIN");
    if !login.Ok? {
      return Err(login.error);
    }
    var secret := GetEnv(env, "OTP_SECRET");
    if !secret.Ok? {
      return Err(secret.error);
    }
    var output := GetEnv(env, "OTP_OUTPUT_FILE");
    if !output.Ok? {
      return Err(output.error);
    }
    if "OTP_RESET" !in env && marker.value in disk.files {
      return Err(AlreadyExists(marker.value));
    }
    var created := disk.Create(marker.value);
    if created.Some? {
      return Err(CreateFileFailed(marker.value, created.value));
    }
    var synced := disk.Sync(marker.value);
    if synced.Some? {
      return Err(SyncFailed(marker.value, synced.value));
    }
    var outputCreated := disk.Create(output.value);
    if outputCreated.Some? {
      return Panic(Unwrapped(outputCreated.value));
    }
    if "OTP_URL" in env {
      var line := "open " + qr.url(secret.value, login.value, name.value);
      assert "" + line == line;
      disk.WriteLine(output.value, line);
    } else {
      var svg := qr.svg(secret.value, login.value, name.value);
      if svg.Failed? {
        return Panic(Unwrapped(svg.why));
      }
      assert "" + svg.text == svg.text;
      disk.WriteLine(output.value, svg.text);
    }
    r := Ok(());
  }

  /** The exit status of `otpqr`: zero on success, one after printing the
      error, and Rust's status for an aborted process otherwise. */
  function ExitStatus(r: Result<()>): (status: int)
    ensures status == 0 <==> r.Ok?
    ensures r.Err? ==> status == 1
  {
    match r
    case Ok(_) => 0
    case Err(_) => 1
    case Panic(_) => 101
  }
}

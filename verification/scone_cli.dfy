/** The scone_cli library: the session reconciler (`create_session`), the
    measurement cache (`check_mrenclave`) and the state store
    (`read_state`/`write_state`). Every docker invocation is a call on a
    `Remote` whose replies are given, not computed. */
module SconeCli {
  import opened Results

  // ---------------------------------------------------------------------------
  // The JSON proxy of a record
  // ---------------------------------------------------------------------------

  /** A serde_json value, restricted to what the persisted records hold. */
  datatype Json = Null | Str(s: string) | Num(n: int)

  /** A JSON object: the proxy `j` through which fields are read and written by name. */
  type Bindings = map<string, Json>

  /** `j[key]` on a JSON object: the value, or `Null` when the key is absent. */
  function Field(j: Bindings, key: string): Json
  {
    if key in j then j[key] else Null
  }

  /** The `Serialize + Deserialize` bound on a record type: its JSON proxy and
      the way back, which fails when a field is missing or has the wrong type. */
  datatype Codec<!T> = Codec(encode: T -> Bindings, decode: Bindings -> Option<T>)

  // ---------------------------------------------------------------------------
  // External commands
  // ---------------------------------------------------------------------------

  /** One external command. The first four are the session commands of the
      remote store; `Measure` is the `docker run` that prints a measurement. */
  datatype Call =
    | Read(name: string)          // scone session read <name>
    | Verify(session: string)     // scone session verify <what read printed>
    | Check(document: string)     // scone session check <rendered document>
    | Create(document: string)    // scone session create <rendered document>
    | Measure(image: Json, binary: Json)

  /** What a command reports: exit status zero (`ok`) and its standard output. */
  datatype Outcome = Outcome(ok: bool, stdout: string)

  /** The behaviour of the outside world: the reply to a command, given the
      number of commands issued before it and the command itself. */
  type Replies = (nat, Call) -> Outcome

  /** Strict-mode Handlebars rendering of a template; `None` is a rendering
      error (for example a placeholder with no binding). */
  type Renderer = (string, Bindings) -> Option<string>

  /** The outside world as seen by one process: every command issued is logged
      in order and answered by `reply`. */
  class Remote {
    const reply: Replies
    var calls: seq<Call>

    constructor (reply: Replies)
      ensures this.reply == reply && calls == []
    {
      this.reply := reply;
      calls := [];
    }

    method Invoke(c: Call) returns (o: Outcome)
      modifies this
      ensures calls == old(calls) + [c]
      ensures o == reply(|old(calls)|, c)
    {
      o := reply(|calls|, c);
      calls := calls + [c];
    }
  }

  /** The result of an operation together with the commands it issued. */
  datatype Trace<T> = Trace(result: Result<T>, calls: seq<Call>)

  /** The reply that the i-th command of `calls` received, when `at` commands
      had been issued before the first of them. */
  function ReplyTo(reply: Replies, at: nat, calls: seq<Call>, i: nat): Outcome
    requires i < |calls|
  {
    reply(at + i, calls[i])
  }

  /** The i-th command of a later run, and the reply to it, seen in the
      whole log. */
  lemma ReplyToAppend(reply: Replies, at: nat, a: seq<Call>, b: seq<Call>, i: nat)
    requires i < |b|
    ensures (a + b)[|a| + i] == b[i]
    ensures ReplyTo(reply, at, a + b, |a| + i) == ReplyTo(reply, at + |a|, b, i)
  {
  }

  /** The names of the sessions read, in order. */
  function Reads(calls: seq<Call>): seq<string>
  {
    ReadsIn(calls, |calls|)
  }

  /** The names read by the first `n` commands. */
  function ReadsIn(calls: seq<Call>, n: nat): seq<string>
    requires n <= |calls|
  {
    if n == 0 then [] else ReadsIn(calls, n - 1) + (if calls[n - 1].Read? then [calls[n - 1].name] else [])
  }

  /** The number of `create` commands. */
  function Creates(calls: seq<Call>): nat
  {
    CreatesIn(calls, |calls|)
  }

  function CreatesIn(calls: seq<Call>, n: nat): nat
    requires n <= |calls|
  {
    if n == 0 then 0 else CreatesIn(calls, n - 1) + (if calls[n - 1].Create? then 1 else 0)
  }

  /** The number of measurements. */
  function Measures(calls: seq<Call>): nat
  {
    MeasuresIn(calls, |calls|)
  }

  function MeasuresIn(calls: seq<Call>, n: nat): nat
    requires n <= |calls|
  {
    if n == 0 then 0 else MeasuresIn(calls, n - 1) + (if calls[n - 1].Measure? then 1 else 0)
  }

  /** The answers to the reads, in order: whether each session could be read.
      `at` commands were issued before. */
  function ReadsAnswered(reply: Replies, at: nat, calls: seq<Call>): seq<bool>
    decreases |calls|
  {
    if calls == [] then []
    else (if calls[0].Read? then [reply(at, calls[0]).ok] else []) + ReadsAnswered(reply, at + 1, calls[1..])
  }

  /** The sessions a create was issued for, in order: a create belongs to the
      session read last before it. */
  function Created(calls: seq<Call>): seq<string>
  {
    CreatedAfter(calls, None)
  }

  /** The sessions created when the session read last before the log is `last`. */
  function CreatedAfter(calls: seq<Call>, last: Option<string>): seq<string>
    decreases |calls|
  {
    if calls == [] then []
    else
      (if calls[0].Create? && last.Some? then [last.value] else [])
      + CreatedAfter(calls[1..], if calls[0].Read? then Some(calls[0].name) else last)
  }

  /** A log that is empty or starts with a read: every create in it belongs
      to a session it reads. */
  predicate StartsWithRead(calls: seq<Call>)
  {
    calls == [] || calls[0].Read?
  }

  /** Within the first log, the counts of a longer log are those of the first. */
  lemma {:induction false} CountsInPrefix(a: seq<Call>, b: seq<Call>, n: nat)
    requires n <= |a|
    ensures ReadsIn(a + b, n) == ReadsIn(a, n)
    ensures CreatesIn(a + b, n) == CreatesIn(a, n)
    ensures MeasuresIn(a + b, n) == MeasuresIn(a, n)
  {
    if n > 0 {
      CountsInPrefix(a, b, n - 1);
      assert (a + b)[n - 1] == a[n - 1];
    }
  }

  /** Beyond the first log, the counts of a longer log are those of the first
      followed by those of the second. */
  lemma {:induction false} CountsInAppend(a: seq<Call>, b: seq<Call>, n: nat)
    requires n <= |b|
    ensures ReadsIn(a + b, |a| + n) == Reads(a) + ReadsIn(b, n)
    ensures CreatesIn(a + b, |a| + n) == Creates(a) + CreatesIn(b, n)
    ensures MeasuresIn(a + b, |a| + n) == Measures(a) + MeasuresIn(b, n)
  {
    if n == 0 {
      CountsInPrefix(a, b, |a|);
      assert Reads(a) + [] == Reads(a);
    } else {
      CountsInAppend(a, b, n - 1);
      var c := b[n - 1];
      assert (a + b)[|a| + n - 1] == c;
      Associative(Reads(a), ReadsIn(b, n - 1), if c.Read? then [c.name] else []);
    }
  }

  lemma ReadsAppend(a: seq<Call>, b: seq<Call>)
    ensures Reads(a + b) == Reads(a) + Reads(b)
  {
    CountsInAppend(a, b, |b|);
  }

  /** Commands that read no session add nothing to the sessions read after them. */
  lemma ReadsAfterNone(a: seq<Call>, b: seq<Call>)
    requires Reads(a) == []
    ensures Reads(a + b) == Reads(b)
  {
    ReadsAppend(a, b);
    assert [] + Reads(b) == Reads(b);
  }

  lemma CreatesAppend(a: seq<Call>, b: seq<Call>)
    ensures Creates(a + b) == Creates(a) + Creates(b)
  {
    CountsInAppend(a, b, |b|);
  }

  lemma MeasuresAppend(a: seq<Call>, b: seq<Call>)
    ensures Measures(a + b) == Measures(a) + Measures(b)
  {
    CountsInAppend(a, b, |b|);
  }

  lemma Associative<T>(a: seq<T>, b: seq<T>, c: seq<T>)
    ensures (a + b) + c == a + (b + c)
  {
  }

  /** The counts of one command, and of two. */
  lemma Counts(c: Call, d: Call)
    ensures Reads([c]) == (if c.Read? then [c.name] else [])
    ensures Creates([c]) == (if c.Create? then 1 else 0)
    ensures Measures([c]) == (if c.Measure? then 1 else 0)
    ensures Reads([d]) == (if d.Read? then [d.name] else [])
    ensures Creates([d]) == (if d.Create? then 1 else 0)
    ensures Measures([d]) == (if d.Measure? then 1 else 0)
    ensures Reads([c, d]) == Reads([c]) + Reads([d])
    ensures Creates([c, d]) == Creates([c]) + Creates([d])
    ensures Measures([c, d]) == Measures([c]) + Measures([d])
  {
    One(c);
    One(d);
    assert [c, d] == [c] + [d];
    CountsInAppend([c], [d], 1);
  }

  lemma One(c: Call)
    ensures Reads([c]) == (if c.Read? then [c.name] else [])
    ensures Creates([c]) == (if c.Create? then 1 else 0)
    ensures Measures([c]) == (if c.Measure? then 1 else 0)
  {
    assert ReadsIn([c], 0) == [];
    assert CreatesIn([c], 1) == CreatesIn([c], 0) + (if c.Create? then 1 else 0);
    assert MeasuresIn([c], 1) == MeasuresIn([c], 0) + (if c.Measure? then 1 else 0);
    assert [] + (if c.Read? then [c.name] else []) == (if c.Read? then [c.name] else []);
  }

  /** The answers of one command followed by others. */
  lemma AnsweredUnfold(reply: Replies, at: nat, c: Call, x: seq<Call>)
    ensures ReadsAnswered(reply, at, [c] + x)
            == (if c.Read? then [reply(at, c).ok] else []) + ReadsAnswered(reply, at + 1, x)
  {
    assert ([c] + x)[1..] == x;
  }

  /** The creates of one command followed by others. */
  lemma CreatedUnfold(c: Call, x: seq<Call>, last: Option<string>)
    ensures CreatedAfter([c] + x, last)
            == (if c.Create? && last.Some? then [last.value] else [])
               + CreatedAfter(x, if c.Read? then Some(c.name) else last)
  {
    assert ([c] + x)[1..] == x;
  }

  /** The answers of two logs issued one after the other. */
  lemma {:induction false} AnsweredAppend(reply: Replies, at: nat, a: seq<Call>, b: seq<Call>)
    ensures ReadsAnswered(reply, at, a + b) == ReadsAnswered(reply, at, a) + ReadsAnswered(reply, at + |a|, b)
    decreases |a|
  {
    if a == [] {
      assert a + b == b;
    } else {
      var c := a[0];
      assert a == [c] + a[1..];
      assert a + b == [c] + (a[1..] + b);
      AnsweredUnfold(reply, at, c, a[1..] + b);
      AnsweredUnfold(reply, at, c, a[1..]);
      AnsweredAppend(reply, at + 1, a[1..], b);
      Associative(if c.Read? then [reply(at, c).ok] else [],
                  ReadsAnswered(reply, at + 1, a[1..]), ReadsAnswered(reply, at + |a|, b));
    }
  }

  /** The creates of two logs issued one after the other, when the second
      starts with a read of its own. */
  lemma {:induction false} CreatedAppend(a: seq<Call>, b: seq<Call>, last: Option<string>)
    requires StartsWithRead(b)
    ensures CreatedAfter(a + b, last) == CreatedAfter(a, last) + Created(b)
    decreases |a|
  {
    if a == [] {
      assert a + b == b;
      if b != [] {
        CreatedUnfold(b[0], b[1..], last);
        CreatedUnfold(b[0], b[1..], None);
        assert b == [b[0]] + b[1..];
      }
    } else {
      var c := a[0];
      var next := if c.Read? then Some(c.name) else last;
      assert a == [c] + a[1..];
      assert a + b == [c] + (a[1..] + b);
      CreatedUnfold(c, a[1..] + b, last);
      CreatedUnfold(c, a[1..], last);
      CreatedAppend(a[1..], b, next);
      Associative(if c.Create? && last.Some? then [last.value] else [], CreatedAfter(a[1..], next), Created(b));
    }
  }

  /** A measurement before a log answers no read and creates nothing. */
  lemma MeasuredPrefix(reply: Replies, at: nat, a: seq<Call>, b: seq<Call>)
    requires |a| <= 1 && (|a| == 1 ==> a[0].Measure?)
    ensures ReadsAnswered(reply, at, a + b) == ReadsAnswered(reply, at + |a|, b)
    ensures Created(a + b) == Created(b)
  {
    if |a| == 1 {
      assert a + b == [a[0]] + b;
      AnsweredUnfold(reply, at, a[0], b);
      CreatedUnfold(a[0], b, None);
    } else {
      assert a + b == b;
    }
  }

  /** Commands that neither read nor create, after the session `last` was
      read, are answered nothing and create nothing, and a create after them
      belongs to `last`. */
  lemma {:induction false} QuietTail(reply: Replies, at: nat, x: seq<Call>, last: string)
    requires forall i :: 0 <= i < |x| ==> !x[i].Read?
    requires forall i :: 0 <= i < |x| - 1 ==> !x[i].Create?
    ensures ReadsAnswered(reply, at, x) == []
    ensures CreatedAfter(x, Some(last)) == (if |x| > 0 && x[|x| - 1].Create? then [last] else [])
    decreases |x|
  {
    if x != [] {
      assert x == [x[0]] + x[1..];
      AnsweredUnfold(reply, at, x[0], x[1..]);
      CreatedUnfold(x[0], x[1..], Some(last));
      QuietTail(reply, at + 1, x[1..], last);
    }
  }

  /** Optimistic validation: every `create` is immediately preceded by a
      `check` of the very same document, and that check succeeded. */
  ghost predicate CommitsValidated(reply: Replies, at: nat, calls: seq<Call>)
  {
    forall i: nat :: CommitValidated(reply, at, calls, i)
  }

  /** The command at index `i`, if it is a `create`, follows a successful
      check of its document. */
  ghost predicate CommitValidated(reply: Replies, at: nat, calls: seq<Call>, i: nat)
  {
    i < |calls| && calls[i].Create? ==>
      0 < i && calls[i - 1] == Check(calls[i].document) && ReplyTo(reply, at, calls, i - 1).ok
  }

  /** Validated commits stay validated when further commands follow, and the
      property of two consecutive runs is that of their concatenation. */
  lemma CommitsValidatedAppend(reply: Replies, at: nat, a: seq<Call>, b: seq<Call>)
    requires CommitsValidated(reply, at, a)
    requires CommitsValidated(reply, at + |a|, b)
    ensures CommitsValidated(reply, at, a + b)
  {
    var ab := a + b;
    forall i: nat
      ensures CommitValidated(reply, at, ab, i)
    {
      if i < |a| {
        assert CommitValidated(reply, at, a, i);
        assert ab[i] == a[i];
        if 0 < i {
          assert ab[i - 1] == a[i - 1];
          assert ReplyTo(reply, at, ab, i - 1) == ReplyTo(reply, at, a, i - 1);
        }
      } else if i < |ab| {
        var k := i - |a|;
        assert CommitValidated(reply, at + |a|, b, k);
        assert ab[i] == b[k];
        if 0 < k {
          assert ab[i - 1] == b[k - 1];
          assert ReplyTo(reply, at, ab, i - 1) == ReplyTo(reply, at + |a|, b, k - 1);
        }
      }
    }
  }

  // ---------------------------------------------------------------------------
  // Session reconciler (create_session)
  // ---------------------------------------------------------------------------

  /** The binding keys through which a rendered document names its predecessor. */
  const PredecessorKeyField := "predecessor_key"
  const PredecessorField := "predecessor"

  /** The bindings extended with the predecessor reference. */
  function Chain(j: Bindings, key: string, predecessor: string): Bindings
  {
    j[PredecessorKeyField := Str(key)][PredecessorField := Str(predecessor)]
  }

  /** Render, check, then create; `at` commands were issued before. */
  function Commit(reply: Replies, at: nat, template: string, j: Bindings, render: Renderer): (out: Trace<string>)
  {
    match render(template, j)
    case None => Trace(Panic(RenderingTemplate), [])
    case Some(doc) =>
      if !reply(at, Check(doc)).ok then
        Trace(Err(TemplateIncorrect), [Check(doc)])
      else
        var created := reply(at + 1, Create(doc));
        Trace(if created.ok then Ok(created.stdout) else Err(CreateFailed),
              [Check(doc), Create(doc)])
  }

  /** The commands of a later phase issued after those of an earlier one:
      the later phase's result, and both phases' commands in order. */
  function Then<T>(calls: seq<Call>, rest: Trace<T>): (out: Trace<T>)
    ensures out.result == rest.result && |out.calls| == |calls| + |rest.calls|
  {
    Trace(rest.result, calls + rest.calls)
  }

  /** The lookup phase of `create_session`: read the session and verify what
      was read. `Ok(Some(h))` is a verified hash `h`, `Ok(None)` a session
      that could not be read; a session that was read but does not verify is
      an error. */
  function Lookup(reply: Replies, at: nat, name: string): (out: Trace<Option<string>>)
    ensures 1 <= |out.calls| <= 2 && out.calls[0] == Read(name)
    ensures !out.result.Panic?
    ensures out.result == Ok(None) <==> !reply(at, Read(name)).ok
    ensures |out.calls| == 2 <==> reply(at, Read(name)).ok
    ensures |out.calls| == 2 ==> out.calls[1] == Verify(reply(at, Read(name)).stdout)
    ensures |out.calls| == 2 ==>
              if reply(at + 1, out.calls[1]).ok then out.result == Ok(Some(reply(at + 1, out.calls[1]).stdout))
              else out.result.Err?
  {
    var read := reply(at, Read(name));
    if !read.ok then Trace(Ok(None), [Read(name)])
    else
      var verified := reply(at + 1, Verify(read.stdout));
      Trace(if verified.ok then Ok(Some(verified.stdout)) else Err(ReadingSession),
            [Read(name), Verify(read.stdout)])
  }

  /** What `create_session` does once the lookup is done, `at` commands having
      been issued: a session that did not verify is an error; a verified hash
      is returned as it is unless the update is forced, when a document naming
      it as predecessor is committed; a session that could not be read is
      committed from scratch, with no predecessor. */
  function Resume(reply: Replies, at: nat, lookup: Result<Option<string>>, template: string,
                  j: Bindings, force: bool, render: Renderer): (out: Trace<string>)
  {
    match lookup
    case Ok(Some(verified)) =>
      if force then Commit(reply, at, template, Chain(j, "predecessor", verified), render)
      else Trace(Ok(verified), [])
    case Ok(None) => Commit(reply, at, template, Chain(j, "#", ""), render)
    case _ => Trace(Err(ReadingSession), [])
  }

  /** What `create_session` returns and which commands it issues, when `at`
      commands were issued before it. `j` is the JSON proxy of the caller's
      record, which is passed by value and therefore never changed. */
  function Reconcile(reply: Replies, at: nat, name: string, hash: string, template: string,
                     j: Bindings, force: bool, render: Renderer): (out: Trace<string>)
    // fast path: a known hash is returned without any remote traffic
    ensures |hash| > 0 && !force ==> out == Trace(Ok(hash), [])
    // otherwise the session is read first
    ensures |hash| == 0 || force ==> 1 <= |out.calls| <= 4 && out.calls[0] == Read(name)
  {
    if |hash| > 0 && !force then Trace(Ok(hash), [])
    else
      var lookup := Lookup(reply, at, name);
      Then(lookup.calls, Resume(reply, at + |lookup.calls|, lookup.result, template, j, force, render))
  }

  /** The lookup phase issues one read, of its own session, and no create or
      measurement. */
  lemma {:induction false} LookupCommands(reply: Replies, at: nat, name: string)
    ensures var out := Lookup(reply, at, name);
            Reads(out.calls) == [name] && Creates(out.calls) == 0 && Measures(out.calls) == 0
            && CommitsValidated(reply, at, out.calls)
  {
    var out := Lookup(reply, at, name);
    var read := reply(at, Read(name));
    Counts(Read(name), Verify(read.stdout));
    if read.ok {
      assert out.calls == [Read(name), Verify(read.stdout)];
    } else {
      assert out.calls == [Read(name)];
    }
    forall i: nat
      ensures CommitValidated(reply, at, out.calls, i)
    {
    }
  }

  /** The commit phase issues no read or measurement, and at most one create,
      exactly when the check succeeded, which then validates it. A rendering
      error issues nothing. */
  lemma {:induction false} CommitCommands(reply: Replies, at: nat, template: string, j: Bindings, render: Renderer)
    ensures var out := Commit(reply, at, template, j, render);
            && Reads(out.calls) == [] && Measures(out.calls) == 0
            && Creates(out.calls) == (if |out.calls| == 2 then 1 else 0)
            && CommitsValidated(reply, at, out.calls)
            && (out.result.Ok? ==> |out.calls| == 2)
            && (out.result.Panic? ==> out == Trace(Panic(RenderingTemplate), []))
  {
    var out := Commit(reply, at, template, j, render);
    match render(template, j)
    case None =>
    case Some(doc) =>
      Counts(Check(doc), Create(doc));
      if reply(at, Check(doc)).ok {
        assert out.calls == [Check(doc), Create(doc)];
      } else {
        assert out.calls == [Check(doc)];
      }
    forall i: nat
      ensures CommitValidated(reply, at, out.calls, i)
    {
    }
  }

  /** What follows the lookup reads nothing, measures nothing and creates at
      most once: only after a session was verified and the update is forced,
      or after the session could not be read; a forced update that succeeds
      has created. An abort is a rendering error, before any command. */
  lemma {:induction false} ResumeCommands(reply: Replies, at: nat, lookup: Result<Option<string>>, template: string,
                                          j: Bindings, force: bool, render: Renderer)
    ensures var out := Resume(reply, at, lookup, template, j, force, render);
            && Reads(out.calls) == [] && Measures(out.calls) == 0
            && CommitsValidated(reply, at, out.calls)
            && Creates(out.calls) <= 1
            && (Creates(out.calls) == 1 ==> force || lookup == Ok(None))
            && (force && out.result.Ok? ==> Creates(out.calls) == 1)
            && (out.result.Panic? ==> out == Trace(Panic(RenderingTemplate), []))
  {
    match lookup
    case Ok(Some(verified)) =>
      if force {
        CommitCommands(reply, at, template, Chain(j, "predecessor", verified), render);
      }
    case Ok(None) =>
      CommitCommands(reply, at, template, Chain(j, "#", ""), render);
    case _ =>
  }

  /** What follows the lookup answers with the verified hash, or with what
      the remote store printed for a successful create; it fails with the
      lookup's error or because its last command failed. */
  lemma {:induction false} ResumeAnswers(reply: Replies, at: nat, lookup: Result<Option<string>>, template: string,
                                         j: Bindings, force: bool, render: Renderer)
    ensures var out := Resume(reply, at, lookup, template, j, force, render);
            var last := |out.calls| - 1;
            && (out.result.Ok? ==>
                  || (|out.calls| == 0 && lookup == Ok(Some(out.result.value)))
                  || (|out.calls| == 2 && out.calls[1].Create? && reply(at + 1, out.calls[1]) == Outcome(true, out.result.value)))
            && (out.result.Err? ==>
                  || (|out.calls| == 0 && !lookup.Ok?)
                  || (|out.calls| > 0 && !reply(at + last, out.calls[last]).ok))
  {
  }

  /** The hash returned is the caller's own, or the one the remote store
      confirmed in answer to the last command, a verify or a create. */
  lemma {:induction false} ReconcileConfirms(reply: Replies, at: nat, name: string, hash: string, template: string,
                                             j: Bindings, force: bool, render: Renderer)
    ensures var out := Reconcile(reply, at, name, hash, template, j, force, render);
            var last := |out.calls| - 1;
            out.result.Ok? ==>
              || (|out.calls| == 0 && out.result.value == hash)
              || (&& |out.calls| > 0 && (out.calls[last].Verify? || out.calls[last].Create?)
                  && ReplyTo(reply, at, out.calls, last) == Outcome(true, out.result.value))
  {
    if |hash| == 0 || force {
      var out := Reconcile(reply, at, name, hash, template, j, force, render);
      var lookup := Lookup(reply, at, name);
      var k := |lookup.calls|;
      var rest := Resume(reply, at + k, lookup.result, template, j, force, render);
      ResumeAnswers(reply, at + k, lookup.result, template, j, force, render);
      if out.result.Ok? {
        if |rest.calls| == 0 {
          assert out.calls == lookup.calls + [];
        } else {
          ReplyToAppend(reply, at, lookup.calls, rest.calls, 1);
        }
      }
    }
  }

  /** A refusal by the later phase, or by the earlier one when the later
      issued nothing, is the refusal of the whole log's last command. */
  lemma RefusedLast<T>(reply: Replies, at: nat, a: seq<Call>, rest: Trace<T>)
    requires |rest.calls| > 0 ==> !ReplyTo(reply, at + |a|, rest.calls, |rest.calls| - 1).ok
    requires |rest.calls| == 0 ==> |a| > 0 && !ReplyTo(reply, at, a, |a| - 1).ok
    ensures var out := Then(a, rest);
            |out.calls| > 0 && !ReplyTo(reply, at, out.calls, |out.calls| - 1).ok
  {
    if |rest.calls| > 0 {
      ReplyToAppend(reply, at, a, rest.calls, |rest.calls| - 1);
    } else {
      assert a + rest.calls == a;
    }
  }

  /** Every error is a refusal by the remote store: the last command failed. */
  lemma {:induction false} ReconcileRefusals(reply: Replies, at: nat, name: string, hash: string, template: string,
                                             j: Bindings, force: bool, render: Renderer)
    ensures var out := Reconcile(reply, at, name, hash, template, j, force, render);
            out.result.Err? ==> |out.calls| > 0 && !ReplyTo(reply, at, out.calls, |out.calls| - 1).ok
  {
    if |hash| == 0 || force {
      var lookup := Lookup(reply, at, name);
      var k := |lookup.calls|;
      var rest := Resume(reply, at + k, lookup.result, template, j, force, render);
      if rest.result.Err? {
        ResumeAnswers(reply, at + k, lookup.result, template, j, force, render);
        RefusedLast(reply, at, lookup.calls, rest);
      }
    }
  }

  /** A session that can be read is verified next. If verification fails the
      result is an error and nothing is checked or created; if it succeeds and
      the update is not forced, the verified hash is returned and nothing is
      checked or created either. */
  lemma {:induction false} ReconcileVerifies(reply: Replies, at: nat, name: string, hash: string, template: string,
                                             j: Bindings, force: bool, render: Renderer)
    requires |hash| == 0 || force
    requires reply(at, Read(name)).ok
    ensures var out := Reconcile(reply, at, name, hash, template, j, force, render);
            var verified := reply(at + 1, Verify(reply(at, Read(name)).stdout));
            && |out.calls| >= 2
            && out.calls[1] == Verify(reply(at, Read(name)).stdout)
            && (!verified.ok ==> out == Trace(Err(ReadingSession), out.calls[..2]))
            && (verified.ok && !force ==> out == Trace(Ok(verified.stdout), out.calls[..2]))
  {
    var out := Reconcile(reply, at, name, hash, template, j, force, render);
    var lookup := Lookup(reply, at, name);
    var rest := Resume(reply, at + 2, lookup.result, template, j, force, render);
    assert out.calls[1] == lookup.calls[1];
    if !(lookup.result.Ok? && force) {
      assert out.calls == lookup.calls + [];
      assert out.calls[..2] == out.calls;
    }
  }

  /** A session that cannot be read is created from scratch, forced or not:
      the template is rendered with no predecessor (`predecessor_key` is `#`
      and `predecessor` is empty) and that document is checked. */
  lemma {:induction false} ReconcileCreatesMissing(reply: Replies, at: nat, name: string, hash: string,
                                                   template: string, j: Bindings, force: bool, render: Renderer)
    requires |hash| == 0 || force
    requires !reply(at, Read(name)).ok
    ensures var out := Reconcile(reply, at, name, hash, template, j, force, render);
            match render(template, Chain(j, "#", ""))
            case None => out == Trace(Panic(RenderingTemplate), [Read(name)])
            case Some(doc) => |out.calls| >= 2 && out.calls[1] == Check(doc)
  {
    var c := Commit(reply, at + 1, template, Chain(j, "#", ""), render);
    assert Reconcile(reply, at, name, hash, template, j, force, render).calls == [Read(name)] + c.calls;
  }

  /** A forced update of a session that was read and verified names the
      verified hash as its predecessor in the document it checks. */
  lemma {:induction false} ReconcileChainsPredecessor(reply: Replies, at: nat, name: string, hash: string,
                                                      template: string, j: Bindings, force: bool, render: Renderer)
    ensures var out := Reconcile(reply, at, name, hash, template, j, force, render);
            forall i :: 2 <= i < |out.calls| && out.calls[i].Check? ==>
              && i == 2 && force && out.calls[1].Verify?
              && render(template, Chain(j, "predecessor", ReplyTo(reply, at, out.calls, 1).stdout))
                 == Some(out.calls[i].document)
  {
    if |hash| == 0 || force {
      var out := Reconcile(reply, at, name, hash, template, j, force, render);
      var lookup := Lookup(reply, at, name);
      var k := |lookup.calls|;
      var rest := Resume(reply, at + k, lookup.result, template, j, force, render);
      assert out.calls == lookup.calls + rest.calls;
    }
  }

  /** One reconciliation reads its own session exactly when it leaves the
      fast path, and runs no measurement. */
  lemma {:induction false} ReconcileReads(reply: Replies, at: nat, name: string, hash: string, template: string,
                                          j: Bindings, force: bool, render: Renderer)
    ensures var out := Reconcile(reply, at, name, hash, template, j, force, render);
            && Reads(out.calls) == (if |hash| == 0 || force then [name] else [])
            && Measures(out.calls) == 0
  {
    if |hash| == 0 || force {
      var lookup := Lookup(reply, at, name);
      var k := |lookup.calls|;
      var rest := Resume(reply, at + k, lookup.result, template, j, force, render);
      var out := Reconcile(reply, at, name, hash, template, j, force, render);
      assert out == Then(lookup.calls, rest);
      LookupCommands(reply, at, name);
      ResumeCommands(reply, at + k, lookup.result, template, j, force, render);
      ReadsAppend(lookup.calls, rest.calls);
      MeasuresAppend(lookup.calls, rest.calls);
      assert Reads(out.calls) == Reads(lookup.calls) + Reads(rest.calls);
    }
  }

  /** Optimistic validation within one reconciliation: a document is created
      only right after a successful check of that same document. */
  lemma {:induction false} ReconcileValidatesCommits(reply: Replies, at: nat, name: string, hash: string,
                                                     template: string, j: Bindings, force: bool, render: Renderer)
    ensures CommitsValidated(reply, at, Reconcile(reply, at, name, hash, template, j, force, render).calls)
  {
    var out := Reconcile(reply, at, name, hash, template, j, force, render);
    if |hash| == 0 || force {
      var lookup := Lookup(reply, at, name);
      var k := |lookup.calls|;
      var rest := Resume(reply, at + k, lookup.result, template, j, force, render);
      assert out == Then(lookup.calls, rest);
      LookupCommands(reply, at, name);
      ResumeCommands(reply, at + k, lookup.result, template, j, force, render);
      CommitsValidatedAppend(reply, at, lookup.calls, rest.calls);
    } else {
      assert forall i: nat :: CommitValidated(reply, at, out.calls, i);
    }
  }

  /** One reconciliation creates at most once, only when forced or when the
      session could not be read; a forced reconciliation that succeeds has
      created the session. */
  lemma {:induction false} ReconcileCreates(reply: Replies, at: nat, name: string, hash: string, template: string,
                                            j: Bindings, force: bool, render: Renderer)
    ensures var out := Reconcile(reply, at, name, hash, template, j, force, render);
            && Creates(out.calls) <= 1
            && (Creates(out.calls) == 1 ==> force || !reply(at, Read(name)).ok)
            && (force && out.result.Ok? ==> Creates(out.calls) == 1)
  {
    if |hash| == 0 || force {
      var lookup := Lookup(reply, at, name);
      var k := |lookup.calls|;
      var rest := Resume(reply, at + k, lookup.result, template, j, force, render);
      var out := Reconcile(reply, at, name, hash, template, j, force, render);
      LookupCommands(reply, at, name);
      ResumeCommands(reply, at + k, lookup.result, template, j, force, render);
      assert Creates(out.calls) == Creates(rest.calls) by {
        CreatesAppend(lookup.calls, rest.calls);
      }
    }
  }

  /** The commit phase answers no read and creates at most once, for the
      session read last before it; it has created when it succeeds. */
  lemma {:induction false} CommitCreated(reply: Replies, at: nat, template: string, j: Bindings, render: Renderer,
                                         last: string)
    ensures var out := Commit(reply, at, template, j, render);
            && ReadsAnswered(reply, at, out.calls) == []
            && CreatedAfter(out.calls, Some(last)) == (if |out.calls| == 2 then [last] else [])
            && (out.result.Ok? ==> |out.calls| == 2)
  {
    var out := Commit(reply, at, template, j, render);
    match render(template, j)
    case None =>
    case Some(doc) =>
      if reply(at, Check(doc)).ok {
        assert out.calls == [Check(doc), Create(doc)];
      } else {
        assert out.calls == [Check(doc)];
      }
      QuietTail(reply, at, out.calls, last);
  }

  /** Which session one reconciliation creates. It reads first, if it reads
      at all, and that read is the only one answered; when it succeeds it has
      created its own session exactly when it read it and either was forced
      or found the session unreadable, and no other session. */
  lemma {:induction false} ReconcileCreated(reply: Replies, at: nat, name: string, hash: string, template: string,
                                            j: Bindings, force: bool, render: Renderer)
    ensures var out := Reconcile(reply, at, name, hash, template, j, force, render);
            var read := |hash| == 0 || force;
            var ok := reply(at, Read(name)).ok;
            && StartsWithRead(out.calls)
            && ReadsAnswered(reply, at, out.calls) == (if read then [ok] else [])
            && (out.result.Ok? ==> Created(out.calls) == (if read && (force || !ok) then [name] else []))
  {
    if |hash| == 0 || force {
      if reply(at, Read(name)).ok {
        FoundCreated(reply, at, name, hash, template, j, force, render);
      } else {
        MissingCreated(reply, at, name, hash, template, j, force, render);
      }
    }
  }

  /** A session that could not be read is created when the reconciliation
      succeeds. */
  lemma {:induction false} MissingCreated(reply: Replies, at: nat, name: string, hash: string, template: string,
                                          j: Bindings, force: bool, render: Renderer)
    requires |hash| == 0 || force
    requires !reply(at, Read(name)).ok
    ensures var out := Reconcile(reply, at, name, hash, template, j, force, render);
            && StartsWithRead(out.calls)
            && ReadsAnswered(reply, at, out.calls) == [false]
            && (out.result.Ok? ==> Created(out.calls) == [name])
  {
    var commit := Commit(reply, at + 1, template, Chain(j, "#", ""), render);
    assert Reconcile(reply, at, name, hash, template, j, force, render) == Then([Read(name)], commit);
    CommitCreated(reply, at + 1, template, Chain(j, "#", ""), render, name);
    AfterRead(reply, at, name, commit.calls);
  }

  /** A session that was read is created only by a forced reconciliation,
      and always by one that succeeds. */
  lemma {:induction false} FoundCreated(reply: Replies, at: nat, name: string, hash: string, template: string,
                                        j: Bindings, force: bool, render: Renderer)
    requires |hash| == 0 || force
    requires reply(at, Read(name)).ok
    ensures var out := Reconcile(reply, at, name, hash, template, j, force, render);
            && StartsWithRead(out.calls)
            && ReadsAnswered(reply, at, out.calls) == [true]
            && (out.result.Ok? ==> Created(out.calls) == (if force then [name] else []))
  {
    var out := Reconcile(reply, at, name, hash, template, j, force, render);
    var read := reply(at, Read(name));
    var lookup := Lookup(reply, at, name);
    var rest := Resume(reply, at + 2, lookup.result, template, j, force, render);
    assert out.calls == [Read(name)] + ([Verify(read.stdout)] + rest.calls);
    if lookup.result.Ok? && force {
      CommitCreated(reply, at + 2, template, Chain(j, "predecessor", lookup.result.value.value), render, name);
    }
    AfterVerify(reply, at, name, Verify(read.stdout), rest.calls);
  }

  /** A log that opens with the read of `name` and a verification: its
      answers are that read's and those of the rest, and the creates of the
      rest belong to `name`. */
  lemma AfterVerify(reply: Replies, at: nat, name: string, verify: Call, after: seq<Call>)
    requires verify.Verify?
    ensures StartsWithRead([Read(name)] + ([verify] + after))
    ensures ReadsAnswered(reply, at, [Read(name)] + ([verify] + after))
            == [reply(at, Read(name)).ok] + ReadsAnswered(reply, at + 2, after)
    ensures Created([Read(name)] + ([verify] + after)) == CreatedAfter(after, Some(name))
  {
    AnsweredUnfold(reply, at + 1, verify, after);
    CreatedUnfold(verify, after, Some(name));
    AfterRead(reply, at, name, [verify] + after);
  }

  /** A log that opens with the read of `name`: its only answer is that
      read's, and its creates belong to `name`. */
  lemma AfterRead(reply: Replies, at: nat, name: string, tail: seq<Call>)
    ensures StartsWithRead([Read(name)] + tail)
    ensures ReadsAnswered(reply, at, [Read(name)] + tail)
            == [reply(at, Read(name)).ok] + ReadsAnswered(reply, at + 1, tail)
    ensures Created([Read(name)] + tail) == CreatedAfter(tail, Some(name))
  {
    AnsweredUnfold(reply, at, Read(name), tail);
    CreatedUnfold(Read(name), tail, None);
  }

  /** A reconciliation aborts only when its document cannot be rendered, so
      before anything was checked: it has issued nothing but the read and
      the verification. */
  lemma {:induction false} ReconcilePanics(reply: Replies, at: nat, name: string, hash: string, template: string,
                                           j: Bindings, force: bool, render: Renderer)
    ensures var out := Reconcile(reply, at, name, hash, template, j, force, render);
            out.result.Panic? ==>
              && out.result == Panic(RenderingTemplate)
              && (forall i :: 0 <= i < |out.calls| ==> out.calls[i].Read? || out.calls[i].Verify?)
  {
    if |hash| == 0 || force {
      var out := Reconcile(reply, at, name, hash, template, j, force, render);
      var lookup := Lookup(reply, at, name);
      var k := |lookup.calls|;
      ResumeCommands(reply, at + k, lookup.result, template, j, force, render);
      if out.result.Panic? {
        assert out.calls == lookup.calls + [];
      }
    }
  }

  /** `create_session` seen from its callers: given where it starts in the
      command log, the session name, the last known hash, the template, the
      caller's record and the flag, the result and the commands issued. */
  type Reconciler<-T> = (nat, string, string, string, T, bool) -> Trace<string>

  /** `create_session` against the outside world `reply`, rendering with
      `render` the record as `encode` serializes it. */
  function Session<T>(reply: Replies, render: Renderer, encode: T -> Bindings): Reconciler<T>
  {
    (at: nat, name: string, hash: string, template: string, x: T, force: bool) =>
      Reconcile(reply, at, name, hash, template, encode(x), force, render)
  }

  /** The contract of `create_session` on which its callers rely: a known hash
      is kept without remote traffic unless forced; otherwise the session
      itself, and no other, is read once, before anything else; no
      measurement is run; at most one session is created, only right after a
      successful check of the same document and only when forced or when the
      read was refused; a call that succeeds has created its own session
      exactly when it read it and was forced or the read was refused. */
  ghost predicate Honors<T(!new)>(reconcile: Reconciler<T>, reply: Replies)
  {
    forall at: nat, name: string, hash: string, template: string, x: T, force: bool ::
      Honored(reconcile, reply, at, name, hash, template, x, force)
  }

  /** The contract of one call of a reconciler. */
  ghost predicate Honored<T>(reconcile: Reconciler<T>, reply: Replies, at: nat, name: string, hash: string,
                             template: string, x: T, force: bool)
  {
    var out := reconcile(at, name, hash, template, x, force);
    && (|hash| > 0 && !force ==> out == Trace(Ok(hash), []))
    && Measures(out.calls) == 0
    && Reads(out.calls) == (if |hash| == 0 || force then [name] else [])
    && Creates(out.calls) <= 1
    && (Creates(out.calls) == 1 ==> force || !reply(at, Read(name)).ok)
    && (force && out.result.Ok? ==> Creates(out.calls) == 1)
    && CommitsValidated(reply, at, out.calls)
    && StartsWithRead(out.calls)
    && ReadsAnswered(reply, at, out.calls) == (if |hash| == 0 || force then [reply(at, Read(name)).ok] else [])
    && (out.result.Ok? ==>
          Created(out.calls) == (if (|hash| == 0 || force) && (force || !reply(at, Read(name)).ok) then [name] else []))
  }

  /** `create_session` keeps that contract, whatever the outside world replies,
      however templates render and however the record is serialized. */
  lemma SessionHonors<T(!new)>(reply: Replies, render: Renderer, encode: T -> Bindings)
    ensures Honors(Session(reply, render, encode), reply)
  {
    forall at: nat, name: string, hash: string, template: string, x: T, force: bool
      ensures Honored(Session(reply, render, encode), reply, at, name, hash, template, x, force)
    {
      ReconcileReads(reply, at, name, hash, template, encode(x), force, render);
      ReconcileValidatesCommits(reply, at, name, hash, template, encode(x), force, render);
      ReconcileCreates(reply, at, name, hash, template, encode(x), force, render);
      ReconcileCreated(reply, at, name, hash, template, encode(x), force, render);
    }
  }

  /** The creation block of `create_session`: render the document into the
      temporary file, check it, and create the session from it. */
  method CommitSession(remote: Remote, template: string, j: Bindings, render: Renderer)
    returns (r: Result<string>)
    modifies remote
    ensures var out := Commit(remote.reply, |old(remote.calls)|, template, j, render);
            r == out.result && remote.calls == old(remote.calls) + out.calls
  {
    var rendered := render(template, j);
    if rendered.None? {
      return Panic(RenderingTemplate);
    }
    var checked := remote.Invoke(Check(rendered.value));
    if !checked.ok {
      return Err(TemplateIncorrect);
    }
    var created := remote.Invoke(Create(rendered.value));
    if created.ok {
      r := Ok(created.stdout);
    } else {
      r := Err(CreateFailed);
    }
  }

  /** The lookup block of `create_session`: read the session into the
      temporary file and verify it. */
  method LookupSession(remote: Remote, name: string) returns (r: Result<Option<string>>)
    modifies remote
    ensures var out := Lookup(remote.reply, |old(remote.calls)|, name);
            r == out.result && remote.calls == old(remote.calls) + out.calls
  {
    var read := remote.Invoke(Read(name));
    if !read.ok {
      return Ok(None);
    }
    var verified := remote.Invoke(Verify(read.stdout));
    if !verified.ok {
      return Err(ReadingSession);
    }
    r := Ok(Some(verified.stdout));
  }

  /** `create_session`: reconcile the session `name` whose last known hash is
      `hash`, rendering `template` against the JSON proxy `state` of the caller's
      record. Returns the session's new hash. */
  method CreateSession(remote: Remote, name: string, hash: string, template: string,
                       state: Bindings, force: bool, render: Renderer) returns (r: Result<string>)
    modifies remote
    ensures var out := Reconcile(remote.reply, |old(remote.calls)|, name, hash, template, state, force, render);
            r == out.result && remote.calls == old(remote.calls) + out.calls
  {
    if |hash| > 0 && !force {
      return Ok(hash);
    }
    ghost var before := remote.calls;
    ghost var prefix := Lookup(remote.reply, |before|, name).calls;
    var j := state;
    var lookup := LookupSession(remote, name);
    if lookup.Err? {
      return Err(ReadingSession);
    }
    var doCreate := force;
    if lookup.value.Some? {
      j := j[PredecessorKeyField := Str("predecessor")];
      j := j[PredecessorField := Str(lookup.value.value)];
      r := Ok(lookup.value.value);
    } else {
      doCreate := true;
      j := j[PredecessorKeyField := Str("#")];
      j := j[PredecessorField := Str("")];
    }
    if doCreate {
      ghost var c := Commit(remote.reply, |remote.calls|, template, j, render);
      r := CommitSession(remote, template, j, render);
      Associative(before, prefix, c.calls);
    }
  }

  // ---------------------------------------------------------------------------
  // Measurement cache (check_mrenclave)
  // ---------------------------------------------------------------------------

  /** The characters `tr -d '[:space:]'` deletes in the POSIX locale. */
  predicate IsSpace(c: char)
  {
    c == ' ' || c == '\t' || c == '\n' || c == '\r' || c as int == 11 || c as int == 12
  }

  /** `tr -d '[:space:]'`: the text without its white space. */
  function DeleteSpace(s: string): (r: string)
    ensures |r| <= |s|
    ensures forall i :: 0 <= i < |r| ==> !IsSpace(r[i])
    ensures (forall i :: 0 <= i < |s| ==> !IsSpace(s[i])) ==> r == s
  {
    if s == [] then []
    else (if IsSpace(s[0]) then [] else [s[0]]) + DeleteSpace(s[1..])
  }

  /** What `sh` reports for `docker run ... | tr -d '[:space:]'` as written:
      the status of the last command of the pipeline, `tr`, which succeeds
      whatever `docker run` did. */
  function PipelineAsWritten(docker: Outcome): (p: Outcome)
    ensures p.ok
    ensures p.stdout == DeleteSpace(docker.stdout)
  {
    Outcome(true, DeleteSpace(docker.stdout))
  }

  /** The measurement pipeline reporting the status of `docker run` itself
      (as with `set -o pipefail`), so that a failed measurement is an error. */
  function Pipeline(docker: Outcome): (p: Outcome)
    ensures p.ok <==> docker.ok
    ensures p.stdout == DeleteSpace(docker.stdout)
    ensures forall i :: 0 <= i < |p.stdout| ==> !IsSpace(p.stdout[i])
  {
    Outcome(docker.ok, DeleteSpace(docker.stdout))
  }

  /** What `check_mrenclave` does to `state` through its JSON proxy: the field
      named `mrenclave` is measured again only when it is empty or `force` is
      set; the measurement runs `binary` of `image`, both read from the proxy.
      `pipeline` maps the reply of `docker run` to what the shell reports.
      `Ok` carries the record that replaces `*state`; on any other outcome the
      caller's record is unchanged. */
  function Measurement<T>(codec: Codec<T>, reply: Replies, at: nat, state: T,
                          mrenclave: string, image: string, binary: string, force: bool,
                          pipeline: Outcome -> Outcome): (out: Trace<T>)
    ensures Field(codec.encode(state), mrenclave) != Str("") && !force ==> out == Trace(Ok(state), [])
    ensures Field(codec.encode(state), mrenclave) == Str("") || force ==>
              out.calls == [Measure(Field(codec.encode(state), image), Field(codec.encode(state), binary))]
    ensures out.result.Err? ==> out.calls != [] && !pipeline(reply(at, out.calls[0])).ok
    ensures out.result.Ok? && out.calls != [] ==>
              var measured := pipeline(reply(at, out.calls[0]));
              measured.ok &&
              codec.decode(codec.encode(state)[mrenclave := Str(measured.stdout)]) == Some(out.result.value)
    ensures out.result.Panic? ==> out.calls != []
  {
    var j := codec.encode(state);
    if Field(j, mrenclave) == Str("") || force then
      var c := Measure(Field(j, image), Field(j, binary));
      var measured := pipeline(reply(at, c));
      if measured.ok then
        match codec.decode(j[mrenclave := Str(measured.stdout)])
        case None => Trace(Panic(Deserialization), [c])
        case Some(updated) => Trace(Ok(updated), [c])
      else
        Trace(Err(MrEnclaveFailed), [c])
    else
      Trace(Ok(state), [])
  }

  /** `check_mrenclave`, with the measurement status taken from `docker run`. */
  method CheckMrenclave<T>(remote: Remote, codec: Codec<T>, state: T, mrenclave: string,
                           image: string, binary: string, force: bool) returns (r: Result<T>)
    modifies remote
    ensures var out := Measurement(codec, remote.reply, |old(remote.calls)|, state,
                                   mrenclave, image, binary, force, Pipeline);
            r == out.result && remote.calls == old(remote.calls) + out.calls
  {
    var j := codec.encode(state);
    if Field(j, mrenclave) == Str("") || force {
      var docker := remote.Invoke(Measure(Field(j, image), Field(j, binary)));
      var measured := Pipeline(docker);
      if measured.ok {
        j := j[mrenclave := Str(measured.stdout)];
        var decoded := codec.decode(j);
        if decoded.None? {
          return Panic(Deserialization);
        }
        r := Ok(decoded.value);
      } else {
        r := Err(MrEnclaveFailed);
      }
    } else {
      r := Ok(state);
    }
  }

  // ---------------------------------------------------------------------------
  // State store (read_state / write_state)
  // ---------------------------------------------------------------------------

  /** The content of a state file as `read_state` sees it: a record it can
      deserialize, text it cannot, or a file `read_to_string` fails on (it
      is not UTF-8, or it cannot be opened). */
  datatype Stored<T> = Parsed(record: T) | Unparsable(text: string) | Unreadable

  /** `read_state`: the stored record, or `initial` (the `Init::new()` record)
      when the file does not exist or cannot be read as text; text that does
      not deserialize aborts. */
  function ReadState<T>(files: map<string, Stored<T>>, filename: string, initial: T): (r: Result<T>)
    ensures r.Ok? || r.Panic?
    ensures filename !in files || files[filename].Unreadable? ==> r == Ok(initial)
    ensures filename in files ==> (r.Ok? <==> !files[filename].Unparsable?)
    ensures filename in files && files[filename].Parsed? ==> r == Ok(files[filename].record)
    ensures r.Panic? ==> r == Panic(CannotDeserialize(filename))
  {
    if filename !in files then Ok(initial)
    else match files[filename]
      case Parsed(record) => Ok(record)
      case Unparsable(_) => Panic(CannotDeserialize(filename))
      case Unreadable => Ok(initial)
  }

  /** The files of the working directory in which records are persisted. */
  class StateStore<T> {
    var files: map<string, Stored<T>>

    constructor (files: map<string, Stored<T>>)
      ensures this.files == files
    {
      this.files := files;
    }

    /** `write_state`: replace the file with the serialized record. */
    method WriteState(state: T, filename: string)
      modifies this
      ensures files == old(files)[filename := Parsed(state)]
    {
      files := files[filename := Parsed(state)];
    }
  }

  /** Writing a record and reading the same file gives the record back, and
      leaves every other file as it was. */
  lemma WriteThenRead<T>(files: map<string, Stored<T>>, filename: string, other: string, state: T, initial: T)
    ensures ReadState(files[filename := Parsed(state)], filename, initial) == Ok(state)
    ensures other != filename ==>
              ReadState(files[filename := Parsed(state)], other, initial) == ReadState(files, other, initial)
  {
  }
}

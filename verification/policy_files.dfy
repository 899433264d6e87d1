/** The policy files of the cosign variant (`write_file`, `write_policies`,
    `read_policies`) and the working directory they live in. */
module PolicyFiles {
  import opened Results

  /** The three session templates a policy set consists of: the namespace
      session, the primary (admin) session and the secondary (remote) session. */
  datatype Templates = Templates(namespace: string, primary: string, secondary: string)

  /** The file names of a policy set: the prefix followed by a fixed suffix. */
  function NamespaceFile(prefix: string): string { prefix + "_namespace.yml" }
  function AdminFile(prefix: string): string { prefix + "_admin.yml" }
  function RemoteFile(prefix: string): string { prefix + "_remote.yml" }

  /** The three file names never collide, whatever the two prefixes are: the
      fifth character from the end already tells them apart. */
  lemma PolicyFilesDistinct(p: string, q: string)
    ensures NamespaceFile(p) != AdminFile(q)
    ensures NamespaceFile(p) != RemoteFile(q)
    ensures AdminFile(p) != RemoteFile(q)
  {
    var n, a, r := NamespaceFile(p), AdminFile(q), RemoteFile(q);
    assert n[|n| - 5] == 'e' && a[|a| - 5] == 'n';
    var a' := AdminFile(p);
    assert a'[|a'| - 5] == 'n' && r[|r| - 5] == 'e';
    assert n[|n| - 6] == 'c' && r[|r| - 6] == 't';
  }

  /** A policy set names its prefix: different prefixes give different files. */
  lemma PolicyFilesInjective(p: string, q: string)
    ensures NamespaceFile(p) == NamespaceFile(q) ==> p == q
    ensures AdminFile(p) == AdminFile(q) ==> p == q
    ensures RemoteFile(p) == RemoteFile(q) ==> p == q
  {
    if NamespaceFile(p) == NamespaceFile(q) {
      assert p == NamespaceFile(p)[..|p|] && q == NamespaceFile(q)[..|q|];
    }
    if AdminFile(p) == AdminFile(q) {
      assert p == AdminFile(p)[..|p|] && q == AdminFile(q)[..|q|];
    }
    if RemoteFile(p) == RemoteFile(q) {
      assert p == RemoteFile(p)[..|p|] && q == RemoteFile(q)[..|q|];
    }
  }

  /** A file of the working directory: text, or a file that exists but
      cannot be read as text (not UTF-8, not readable, a directory). */
  datatype Entry = Text(text: string) | Unreadable

  /** The working directory: each existing file name with its entry. */
  type Dir = map<string, Entry>

  /** The directory after `write_file`: the content is written when `force`
      is set or no file of that name exists; otherwise nothing changes. */
  function Written(files: Dir, filename: string, force: bool, content: string): (after: Dir)
    ensures filename in after
    ensures after[filename] == (if filename in files && !force then files[filename] else Text(content))
    ensures forall f :: f != filename ==> (f in after <==> f in files)
    ensures forall f :: f != filename && f in files ==> after[f] == files[f]
  {
    if force || filename !in files then files[filename := Text(content)] else files
  }

  /** The directory after `write_policies`. */
  function PoliciesWritten(files: Dir, prefix: string, force: bool, defaults: Templates): Dir
  {
    var files := Written(files, NamespaceFile(prefix), force, defaults.namespace);
    var files := Written(files, AdminFile(prefix), force, defaults.primary);
    Written(files, RemoteFile(prefix), force, defaults.secondary)
  }

  /** A file that `read_to_string` reads: it exists and holds text. */
  predicate Readable(files: Dir, filename: string)
  {
    filename in files && files[filename].Text?
  }

  /** `read_policies`: the three templates of a policy set. A file that is
      missing or is not text aborts; the remote file's abort reuses the admin
      file's message. */
  function ReadPolicies(files: Dir, prefix: string): (r: Result<Templates>)
    ensures r.Ok? || r.Panic?
    ensures r.Ok? <==> Readable(files, NamespaceFile(prefix)) && Readable(files, AdminFile(prefix))
                       && Readable(files, RemoteFile(prefix))
    ensures r.Ok? ==> r.value == Templates(files[NamespaceFile(prefix)].text, files[AdminFile(prefix)].text,
                                           files[RemoteFile(prefix)].text)
    ensures !Readable(files, NamespaceFile(prefix)) ==> r == Panic(NamespacePolicy)
    ensures Readable(files, NamespaceFile(prefix)) && !r.Ok? ==> r == Panic(AdminPolicy)
  {
    if !Readable(files, NamespaceFile(prefix)) then Panic(NamespacePolicy)
    else if !Readable(files, AdminFile(prefix)) then Panic(AdminPolicy)
    else if !Readable(files, RemoteFile(prefix)) then Panic(AdminPolicy)
    else Ok(Templates(files[NamespaceFile(prefix)].text, files[AdminFile(prefix)].text,
                      files[RemoteFile(prefix)].text))
  }

  /** Generating the policies with `force` and reading them back gives exactly
      the generated templates, whatever stood under those names before. */
  lemma {:induction false} WrittenPoliciesReadBack(files: Dir, prefix: string, defaults: Templates)
    ensures ReadPolicies(PoliciesWritten(files, prefix, true, defaults), prefix) == Ok(defaults)
  {
    PolicyFilesDistinct(prefix, prefix);
  }

  /** The entry a policy file has after generation without `force`: the
      existing one, else the generated template. */
  function Kept(files: Dir, filename: string, template: string): Entry
  {
    if filename in files then files[filename] else Text(template)
  }

  /** Without `force`, generation never overwrites: a policy file that exists
      keeps its entry and a missing one gets the generated template. The set
      can be read afterwards exactly when none of the existing policy files
      is unreadable, and then gives the kept texts. Files outside the policy
      set are left as they were. */
  lemma {:induction false} ExistingPoliciesKept(files: Dir, prefix: string, defaults: Templates)
    ensures var after := PoliciesWritten(files, prefix, false, defaults);
            && after[NamespaceFile(prefix)] == Kept(files, NamespaceFile(prefix), defaults.namespace)
            && after[AdminFile(prefix)] == Kept(files, AdminFile(prefix), defaults.primary)
            && after[RemoteFile(prefix)] == Kept(files, RemoteFile(prefix), defaults.secondary)
            && (ReadPolicies(after, prefix).Ok? <==>
                  forall f :: f in {NamespaceFile(prefix), AdminFile(prefix), RemoteFile(prefix)} && f in files ==>
                    files[f].Text?)
            && (ReadPolicies(after, prefix).Ok? ==> ReadPolicies(after, prefix).value == Templates(
                 Kept(files, NamespaceFile(prefix), defaults.namespace).text,
                 Kept(files, AdminFile(prefix), defaults.primary).text,
                 Kept(files, RemoteFile(prefix), defaults.secondary).text))
            && (forall f :: f !in {NamespaceFile(prefix), AdminFile(prefix), RemoteFile(prefix)} ==>
                  (f in after <==> f in files) && (f in files ==> after[f] == files[f]))
  {
    PolicyFilesDistinct(prefix, prefix);
  }

  /** The working directory: policy files and the single-use marker files. */
  class Workdir {
    var files: Dir

    constructor (files: Dir)
      ensures this.files == files
    {
      this.files := files;
    }

    /** `write_file`: write unless a file exists and `force` is not set. */
    method WriteFile(filename: string, force: bool, content: string)
      modifies this
      ensures files == Written(old(files), filename, force, content)
    {
      if force || filename !in files {
        files := files[filename := Text(content)];
      }
    }

    /** `write_policies`: the three templates, each under its own name. */
    method WritePolicies(prefix: string, force: bool, defaults: Templates)
      modifies this
      ensures files == PoliciesWritten(old(files), prefix, force, defaults)
    {
      WriteFile(NamespaceFile(prefix), force, defaults.namespace);
      WriteFile(AdminFile(prefix), force, defaults.primary);
      WriteFile(RemoteFile(prefix), force, defaults.secondary);
    }

    /** `remove_file` with its error ignored: afterwards the file is absent. */
    method RemoveFile(filename: string)
      modifies this
      ensures files == old(files) - {filename}
    {
      files := files - {filename};
    }
  }
}

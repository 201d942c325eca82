/** The pure decisions of the setup script: the Python version check, the
    creation of `.env` from its template, and which required Azure OpenAI
    variables the `.env` file leaves missing. File existence and contents
    are parameters. */
module Setup {
  import opened Outcomes
  import opened Seqs
  import opened Strings

  /** `sys.version_info`. */
  datatype VersionInfo = VersionInfo(major: nat, minor: nat, micro: nat, releaseLevel: string, serial: nat)

  /** Python's `<` on tuples of integers: the first differing position
      decides, and a proper prefix is smaller. */
  predicate TupleLess(a: seq<int>, b: seq<int>)
    decreases |a|
  {
    if |b| == 0 then false
    else if |a| == 0 then true
    else if a[0] != b[0] then a[0] < b[0]
    else TupleLess(a[1..], b[1..])
  }

  const MinimumVersion: seq<int> := [3, 8]

  /** `check_python_version`: `sys.version_info < (3, 8)` fails the check.
      The comparison with a pair is decided within the first two fields (or,
      when they are equal, by the longer tuple being larger), so the string
      release level is never compared; the numeric prefix stands in for the
      whole tuple. */
  function CheckPythonVersion(v: VersionInfo): (ok: bool)
    ensures !ok <==> v.major < 3 || (v.major == 3 && v.minor < 8)
  {
    var numeric: seq<int> := [v.major, v.minor, v.micro];
    assert numeric[1..] == [v.minor, v.micro] && numeric[1..][1..] == [v.micro];
    assert MinimumVersion[1..] == [8] && MinimumVersion[1..][1..] == [];
    assert TupleLess([v.micro], []) == false;
    assert TupleLess([v.minor, v.micro], [8]) == (v.minor < 8);
    !TupleLess(numeric, MinimumVersion)
  }

  /** Tuple `<` is irreflexive and transitive. */
  lemma {:induction false} TupleLessIsStrictOrder(a: seq<int>, b: seq<int>, c: seq<int>)
    ensures !TupleLess(a, a)
    ensures TupleLess(a, b) && TupleLess(b, c) ==> TupleLess(a, c)
    decreases |a|
  {
    if |a| > 0 && |b| > 0 && |c| > 0 {
      TupleLessIsStrictOrder(a[1..], b[1..], c[1..]);
    } else if |a| > 0 {
      TupleLessIsStrictOrder(a[1..], a[1..], a[1..]);
    }
  }

  /** Whether `.env` and `env_example.txt` exist, with their contents. */
  datatype EnvFiles = EnvFiles(env: Option<string>, template: Option<string>)

  /** `create_env_file`: keep an existing `.env`; otherwise copy the template
      when there is one; otherwise fail. True exactly when `.env` exists afterwards. */
  function CreateEnvFile(files: EnvFiles): (r: (bool, EnvFiles))
    ensures r.0 <==> r.1.env.Some?
    ensures r.1.template == files.template
    ensures files.env.Some? ==> r.1 == files
    ensures files.env.None? ==> r.1.env == files.template
  {
    if files.env.Some? then (true, files)
    else if files.template.Some? then (true, files.(env := files.template))
    else (false, files)
  }

  const RequiredVars: seq<string> := [
    "AZURE_OPENAI_API_KEY",
    "AZURE_OPENAI_ENDPOINT",
    "AZURE_OPENAI_DEPLOYMENT_NAME",
    "AZURE_OPENAI_EMBEDDING_DEPLOYMENT_NAME"
  ]

  /** A variable counts as missing when `VAR=` does not occur in the file or
      the placeholder `VAR=your_` does. */
  predicate IsMissing(content: string, name: string)
    ensures IsMissing(content, name) <==>
      (forall i :: !OccursAt(content, name + "=", i)) || (exists i :: OccursAt(content, name + "=your_", i))
  {
    ContainsIffOccurs(content, name + "=");
    ContainsIffOccurs(content, name + "=your_");
    !Contains(content, name + "=") || Contains(content, name + "=your_")
  }

  /** The missing variables, in the order of `required_vars`, each once. */
  function MissingVars(content: string): (missing: seq<string>)
    ensures IsSubsequence(missing, RequiredVars)
    ensures Distinct(missing)
    ensures forall i :: 0 <= i < |missing| ==> missing[i] in RequiredVars
    ensures forall i :: 0 <= i < |missing| ==> IsMissing(content, missing[i])
    ensures forall i :: 0 <= i < |RequiredVars| && IsMissing(content, RequiredVars[i]) ==> RequiredVars[i] in missing
  {
    RequiredVarsDistinct();
    FilterIsSubsequence(name => IsMissing(content, name), RequiredVars);
    FilterKeepsDistinct(name => IsMissing(content, name), RequiredVars);
    Filter(name => IsMissing(content, name), RequiredVars)
  }

  lemma RequiredVarsDistinct()
    ensures Distinct(RequiredVars)
  {
    var v := RequiredVars;
    assert |v[0]| == 20 && |v[1]| == 21 && |v[2]| == 28 && |v[3]| == 38;
  }

  /** `check_azure_config`: `.env` exists and no required variable is missing. */
  function CheckAzureConfig(env: Option<string>): (ok: bool)
    ensures ok <==> env.Some? && forall i :: 0 <= i < |RequiredVars| ==> !IsMissing(env.value, RequiredVars[i])
  {
    match env
    case None => false
    case Some(content) =>
      var missing := MissingVars(content);
      if |missing| > 0 then
        assert IsMissing(content, missing[0]) && missing[0] in RequiredVars;
        false
      else true
  }

  /** The template's placeholder `VAR=your_` anywhere in the file marks the
      variable missing, even when another line sets it. */
  lemma PlaceholderMarksMissing(name: string, before: string, after: string)
    ensures IsMissing(before + name + "=your_" + after, name)
  {
    var pattern := name + "=your_";
    var content := before + name + "=your_" + after;
    assert content == before + pattern + after;
    var i := |before|;
    assert content[i..i + |pattern|] == pattern;
    assert OccursAt(content, pattern, i);
    ContainsIffOccurs(content, pattern);
  }
}

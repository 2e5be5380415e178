/** shared/utils.py: `resolve_archive_dest`, routing through an ordered archive
    map whose rules name an environment key instead of a container. */
module SharedUtils {
  import opened Common
  import opened Strings
  import opened Rules

  /** The value of one archive-map entry: `[container_key, subfolder]`. */
  datatype Target = Target(containerKey: string, subfolder: string)

  const DefaultContainerKey := "DefaultArchiveContainer"
  const FallbackSubfolder := "misc"

  /** The container a matched rule resolves to: the key's value, which must be
      present and non-empty. */
  function ContainerFor(target: Target, env: map<string, string>): (r: Result<Destination>)
    ensures r.Ok? <==> target.containerKey in env && env[target.containerKey] != ""
    ensures r.Ok? ==> r.value == Destination(env[target.containerKey], target.subfolder)
    ensures r.Err? ==> r.fault == MissingKey(target.containerKey)
  {
    var key := target.containerKey;
    if key in env && env[key] != "" then Ok(Destination(env[key], target.subfolder))
    else Err(MissingKey(key))
  }

  /** The destination when no rule matches: the default container, whatever its
      value, with the fallback subfolder. */
  function DefaultDestination(env: map<string, string>): (r: Result<Destination>)
    ensures r.Ok? <==> DefaultContainerKey in env
    ensures r.Ok? ==> r.value == Destination(env[DefaultContainerKey], FallbackSubfolder)
    ensures r.Err? ==> r.fault == MissingKey(DefaultContainerKey)
  {
    if DefaultContainerKey in env then Ok(Destination(env[DefaultContainerKey], FallbackSubfolder))
    else Err(MissingKey(DefaultContainerKey))
  }

  /** The loop over the archive map, from entry `i` on. */
  function ResolveFrom(fname: string, archiveMap: seq<Rule<Target>>, env: map<string, string>, i: nat): (r: Result<Destination>)
    decreases |archiveMap| - i
    ensures r.Err? ==> r.fault.MissingKey? && (r.fault.key in env ==> env[r.fault.key] == "")
  {
    if i >= |archiveMap| then DefaultDestination(env)
    else if StartsWith(fname, archiveMap[i].prefix) then ContainerFor(archiveMap[i].target, env)
    else ResolveFrom(fname, archiveMap, env, i + 1)
  }

  /** `resolve_archive_dest(blob_name, archive_map)` with `os.environ` as `env`. */
  function ResolveArchiveDest(blobName: string, archiveMap: seq<Rule<Target>>, env: map<string, string>): (r: Result<Destination>)
    ensures r.Err? ==> r.fault.MissingKey?
    ensures r.Err? && r.fault.key in env ==> env[r.fault.key] == ""
  {
    ResolveFrom(Lower(blobName), archiveMap, env, 0)
  }

  /** The outcome of the loop from entry `i` is decided by the first entry at or
      after `i` that matches, or by the default when none does. */
  lemma {:induction false} ResolveFromFirstMatch(fname: string, archiveMap: seq<Rule<Target>>, env: map<string, string>, i: nat)
    requires i <= |archiveMap|
    decreases |archiveMap| - i
    ensures ResolveFrom(fname, archiveMap, env, i) ==
      match FirstMatch(archiveMap[i..], fname)
      case Some(k) => ContainerFor(archiveMap[i + k].target, env)
      case None => DefaultDestination(env)
  {
    var rest := archiveMap[i..];
    if i < |archiveMap| {
      ResolveFromFirstMatch(fname, archiveMap, env, i + 1);
      assert rest[1..] == archiveMap[i + 1..];
    }
  }

  /** The first rule, in map order, whose prefix starts the lower-cased name
      decides the result: its key's non-empty value, or a missing-key error
      without trying later rules; no match gives the default container. */
  lemma ResolveIsFirstMatch(blobName: string, archiveMap: seq<Rule<Target>>, env: map<string, string>)
    ensures ResolveArchiveDest(blobName, archiveMap, env) ==
      match FirstMatch(archiveMap, Lower(blobName))
      case Some(k) => ContainerFor(archiveMap[k].target, env)
      case None => DefaultDestination(env)
  {
    ResolveFromFirstMatch(Lower(blobName), archiveMap, env, 0);
    assert archiveMap[0..] == archiveMap;
  }

  /** Rules after the first match play no part. */
  lemma LaterRulesIrrelevant(blobName: string, archiveMap: seq<Rule<Target>>, more: seq<Rule<Target>>, env: map<string, string>)
    requires FirstMatch(archiveMap, Lower(blobName)).Some?
    ensures ResolveArchiveDest(blobName, archiveMap + more, env) == ResolveArchiveDest(blobName, archiveMap, env)
  {
    var fname := Lower(blobName);
    var k := FirstMatch(archiveMap, fname).value;
    var whole := archiveMap + more;
    assert whole[k] == archiveMap[k];
    forall j | 0 <= j < k ensures !StartsWith(fname, whole[j].prefix) {
      assert whole[j] == archiveMap[j];
    }
    FirstMatchUnique(whole, fname, k);
    ResolveIsFirstMatch(blobName, archiveMap, env);
    ResolveIsFirstMatch(blobName, whole, env);
  }

  /** The one environment key the resolution consults. */
  function ConsultedKey(blobName: string, archiveMap: seq<Rule<Target>>): string {
    match FirstMatch(archiveMap, Lower(blobName))
    case Some(k) => archiveMap[k].target.containerKey
    case None => DefaultContainerKey
  }

  /** Environments that agree on the consulted key give the same result. */
  lemma OtherKeysIrrelevant(blobName: string, archiveMap: seq<Rule<Target>>, env1: map<string, string>, env2: map<string, string>)
    requires var key := ConsultedKey(blobName, archiveMap);
      (key in env1 <==> key in env2) && (key in env1 ==> env1[key] == env2[key])
    ensures ResolveArchiveDest(blobName, archiveMap, env1) == ResolveArchiveDest(blobName, archiveMap, env2)
  {
    ResolveIsFirstMatch(blobName, archiveMap, env1);
    ResolveIsFirstMatch(blobName, archiveMap, env2);
  }

  /** A rule whose prefix holds an upper-case letter never decides a route. */
  lemma UpperCaseRuleNeverMatches(blobName: string, archiveMap: seq<Rule<Target>>, k: nat, i: nat)
    requires k < |archiveMap| && i < |archiveMap[k].prefix| && IsUpper(archiveMap[k].prefix[i])
    ensures FirstMatch(archiveMap, Lower(blobName)) != Some(k)
  {
    UpperCasePrefixNeverMatches(blobName, archiveMap[k].prefix, i);
  }
}

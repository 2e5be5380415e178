/** MoveToArchive/__init__.py: the configurable event handler. The ingest
    container and the archive containers come from settings, routing goes
    through an archive map, and the copy reads from a SAS-signed URL. */
module MoveToArchive {
  import opened Common
  import opened Strings
  import opened Rules
  import opened Storage
  import opened CopyWorkflow
  import opened Naming
  import opened SharedUtils

  /** The setting naming the configuration file, read before anything else. */
  const ConfigPathKey := "ConfigPath"
  /** The setting naming the ingest container. */
  const IngestContainerKey := "IngestContainerName"

  /** Every setting the handler reads, in the order it reads them, except the
      container keys of the archive map. */
  predicate HasSettings(env: map<string, string>) {
    ConfigPathKey in env && IngestContainerKey in env && IngestConnectionKey in env && ArchiveConnectionKey in env
  }

  /** The steps of `main` before the first storage call. `env` is the
      environment once the configuration file has been loaded into it. */
  function Prepare(url: Option<string>, env: map<string, string>, archiveMap: seq<Rule<Target>>, timestamp: string): (plan: Plan)
    ensures ConfigPathKey !in env ==> plan == Stop(Failed(MissingKey(ConfigPathKey)))
    ensures ConfigPathKey in env ==> (url == None || url == Some("") <==> plan == Stop(NoUrl))
    ensures plan.Stop? && plan.outcome.Failed? ==>
      plan.outcome.fault.MissingKey? && (plan.outcome.fault.key in env ==> env[plan.outcome.fault.key] == "")
    ensures ConfigPathKey in env && url.Some? && url.value != "" && IngestContainerKey !in env ==>
      plan == Stop(Failed(MissingKey(IngestContainerKey)))
    ensures ConfigPathKey in env && url.Some? && url.value != "" && IngestContainerKey in env ==>
      var r := ResolveArchiveDest(ExtractBlobName(url.value, env[IngestContainerKey]), archiveMap, env);
      && (r.Err? ==> plan == Stop(Failed(r.fault)))
      && (r.Ok? && !(IngestConnectionKey in env && ArchiveConnectionKey in env) ==>
            plan == Stop(Failed(MissingKey(if IngestConnectionKey !in env then IngestConnectionKey else ArchiveConnectionKey))))
    ensures plan.Go? <==>
      && HasSettings(env) && url.Some? && url.value != ""
      && ResolveArchiveDest(ExtractBlobName(url.value, env[IngestContainerKey]), archiveMap, env).Ok?
    ensures plan.Go? ==>
      var job := plan.job;
      && job.blobName == ExtractBlobName(url.value, env[IngestContainerKey])
      && IsSuffix(job.blobName, url.value)
      && ResolveArchiveDest(job.blobName, archiveMap, env).Ok?
      && job.target.container == ResolveArchiveDest(job.blobName, archiveMap, env).value.container
      && job.target.name == ArchiveNameTrimmed(ResolveArchiveDest(job.blobName, archiveMap, env).value.subfolder, job.blobName, timestamp)
      && job.original == BlobRef(env[IngestContainerKey], job.blobName)
      && job.source == SourceUrl(SasUrl(url.value, env[IngestConnectionKey]))
  {
    if ConfigPathKey !in env then Stop(Failed(MissingKey(ConfigPathKey)))
    else if url.None? || url.value == "" then Stop(NoUrl)
    else if IngestContainerKey !in env then Stop(Failed(MissingKey(IngestContainerKey)))
    else
      var ingest := env[IngestContainerKey];
      var blobName := ExtractBlobName(url.value, ingest);
      match ResolveArchiveDest(blobName, archiveMap, env)
      case Err(fault) => Stop(Failed(fault))
      case Ok(dest) =>
        var archiveName := ArchiveNameTrimmed(dest.subfolder, blobName, timestamp);
        if IngestConnectionKey !in env then Stop(Failed(MissingKey(IngestConnectionKey)))
        else if ArchiveConnectionKey !in env then Stop(Failed(MissingKey(ArchiveConnectionKey)))
        else
          var sasUrl := SasUrl(url.value, env[IngestConnectionKey]);
          Go(Job(blobName, BlobRef(dest.container, archiveName), SourceUrl(sasUrl), BlobRef(ingest, blobName)))
  }

  /** `main`: prepare, then run the copy phase; every exception is caught and
      reported. The backend is fresh for each invocation. */
  method HandleEvent(store: Backend, url: Option<string>, env: map<string, string>, archiveMap: seq<Rule<Target>>, timestamp: string)
    returns (outcome: Outcome)
    requires store.log == [] && store.statusReads == 0
    modifies store
    ensures match Prepare(url, env, archiveMap, timestamp)
      case Stop(o) => outcome == o && store.log == []
      case Go(job) =>
        var run := Execute(store.script, job.target, job.source, job.original);
        store.log == run.log && outcome == Report(job, run.finish)
  {
    var plan := Prepare(url, env, archiveMap, timestamp);
    match plan {
      case Stop(o) =>
        outcome := o;
      case Go(job) =>
        var finish := CopyAndFinalise(store, job.target, job.source, job.original);
        outcome := Report(job, finish);
    }
  }

  /** A routing error (a matched rule whose container setting is missing or
      empty, or no default container) ends the invocation with that error
      before any storage call. */
  lemma ResolutionErrorStopsBeforeCopy(url: string, env: map<string, string>, archiveMap: seq<Rule<Target>>, timestamp: string)
    requires url != "" && ConfigPathKey in env && IngestContainerKey in env
    ensures var r := ResolveArchiveDest(ExtractBlobName(url, env[IngestContainerKey]), archiveMap, env);
      r.Err? ==> Prepare(Some(url), env, archiveMap, timestamp) == Stop(Failed(r.fault))
  {
  }

  /** The handler deletes only the ingested blob, in the configured ingest
      container, right after setting the Archive tier on the copy, and only
      once the copy was confirmed. */
  lemma DeletesOnlyConfirmedSource(url: Option<string>, env: map<string, string>, archiveMap: seq<Rule<Target>>, timestamp: string, script: Script)
    ensures Prepare(url, env, archiveMap, timestamp).Go? ==>
      var job := Prepare(url, env, archiveMap, timestamp).job;
      var log := Execute(script, job.target, job.source, job.original).log;
      forall k :: 0 <= k < |log| && log[k].DeleteBlob? ==>
        && log[k] == DeleteBlob(BlobRef(env[IngestContainerKey], job.blobName))
        && 0 < k && log[k - 1] == SetArchiveTier(job.target)
        && ConfirmedSuccess(script)
  {
    if Prepare(url, env, archiveMap, timestamp).Go? {
      var job := Prepare(url, env, archiveMap, timestamp).job;
      DeleteOnlyAfterConfirmedSuccess(script, job.target, job.source, job.original);
    }
  }

  /** The copy reads the event URL signed with the signature of the ingest
      connection string, and never carries the signature marker itself. */
  lemma CopySourceIsSigned(url: Option<string>, env: map<string, string>, archiveMap: seq<Rule<Target>>, timestamp: string)
    ensures Prepare(url, env, archiveMap, timestamp).Go? ==>
      var source := Prepare(url, env, archiveMap, timestamp).job.source;
      var conn := env[IngestConnectionKey];
      && source.SourceUrl?
      && source.url[..|url.value| + 1] == url.value + "?"
      && IsSuffix(source.url[|url.value| + 1..], conn)
      && !Contains(source.url[|url.value| + 1..], SasMarker)
      && (!Contains(conn, SasMarker) ==> source.url == url.value + "?" + conn)
  {
  }

  /** Naming differs from function_code only for a blob whose name ends in a
      dot: there this handler drops the dot. */
  lemma NamingDropsTrailingDot(url: Option<string>, env: map<string, string>, archiveMap: seq<Rule<Target>>, timestamp: string)
    ensures Prepare(url, env, archiveMap, timestamp).Go? ==>
      var job := Prepare(url, env, archiveMap, timestamp).job;
      var subfolder := ResolveArchiveDest(job.blobName, archiveMap, env).value.subfolder;
      var trailingDot := |job.blobName| > 0 && job.blobName[|job.blobName| - 1] == '.';
      && (!trailingDot ==> job.target.name == ArchiveName(subfolder, job.blobName, timestamp))
      && (trailingDot ==> ArchiveName(subfolder, job.blobName, timestamp) == job.target.name + ".")
  {
    if Prepare(url, env, archiveMap, timestamp).Go? {
      var job := Prepare(url, env, archiveMap, timestamp).job;
      var subfolder := ResolveArchiveDest(job.blobName, archiveMap, env).value.subfolder;
      NamingVariantsDiffer(subfolder, job.blobName, timestamp);
    }
  }

  /** As written, the handler can delete a blob it did not copy: for a URL
      `{host}/{container}/{path}` whose path holds a second container segment,
      the copy reads the blob at `path` but the delete targets a shorter name. */
  lemma DeletesBlobOtherThanCopied(host: string, path: string, env: map<string, string>, archiveMap: seq<Rule<Target>>, timestamp: string)
    requires IngestContainerKey in env
    requires !Contains(host + "/" + env[IngestContainerKey], "/" + env[IngestContainerKey] + "/")
    requires Contains(path, "/" + env[IngestContainerKey] + "/")
    ensures var url := host + "/" + env[IngestContainerKey] + "/" + path;
      var plan := Prepare(Some(url), env, archiveMap, timestamp);
      plan.Go? ==>
        && plan.job.source == SourceUrl(SasUrl(url, env[IngestConnectionKey]))
        && BlobPathAfterContainer(url, env[IngestContainerKey]) == path
        && plan.job.original != BlobRef(env[IngestContainerKey], path)
  {
    ExtractBlobNameCutsNestedPath(host, env[IngestContainerKey], path);
  }
}

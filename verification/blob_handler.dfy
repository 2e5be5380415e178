/** function_code/blob_handler.py: `archive_blob`, the copy phase of the handler
    factored out for one blob, with the router passed in and a message
    returned. Exceptions are not caught here: they reach the caller. */
module BlobHandler {
  import opened Common
  import opened Strings
  import opened Storage
  import opened CopyWorkflow
  import opened Naming
  import FunctionApp

  /** The steps of `archive_blob` before the first storage call: route the
      name, build the archive name, read both connection settings. */
  function Prepare(blobName: string, ingestContainer: string, getDest: string -> Result<Destination>,
                   env: map<string, string>, timestamp: string): (r: Result<Job>)
    ensures getDest(blobName).Err? ==> r == Err(getDest(blobName).fault)
    ensures getDest(blobName).Ok? ==>
      (r.Ok? <==> IngestConnectionKey in env && ArchiveConnectionKey in env)
    ensures getDest(blobName).Ok? && r.Err? ==>
      r.fault == MissingKey(if IngestConnectionKey !in env then IngestConnectionKey else ArchiveConnectionKey)
    ensures r.Ok? ==>
      var dest := getDest(blobName).value;
      && r.value.blobName == blobName
      && r.value.target == BlobRef(dest.container, ArchiveName(dest.subfolder, blobName, timestamp))
      && r.value.original == BlobRef(ingestContainer, blobName)
      && r.value.source == SourceBlob(r.value.original)
  {
    match getDest(blobName)
    case Err(fault) => Err(fault)
    case Ok(dest) =>
      var archiveName := ArchiveName(dest.subfolder, blobName, timestamp);
      if IngestConnectionKey !in env then Err(MissingKey(IngestConnectionKey))
      else if ArchiveConnectionKey !in env then Err(MissingKey(ArchiveConnectionKey))
      else
        var original := BlobRef(ingestContainer, blobName);
        Ok(Job(blobName, BlobRef(dest.container, archiveName), SourceBlob(original), original))
  }

  const ArchivedPrefix := "Archived to "
  const FailedPrefix := "Copy failed for "

  /** The message returned once the copy phase ended without an exception;
      an exception in the copy phase reaches the caller. */
  function Message(job: Job, finish: Finish): (r: Result<string>)
    ensures r.Err? <==> finish == Raised
    ensures r.Err? ==> r.fault == BackendError
    ensures finish == Archived ==>
      StartsWith(r.value, ArchivedPrefix) && r.value[|ArchivedPrefix|..] == job.target.container + "/" + job.target.name
    ensures finish.NotCopied? ==>
      StartsWith(r.value, FailedPrefix) && r.value[|FailedPrefix|..] == job.blobName + ": " + finish.status
  {
    match finish
    case Archived => Ok(ArchivedPrefix + job.target.container + "/" + job.target.name)
    case NotCopied(status) => Ok(FailedPrefix + job.blobName + ": " + status)
    case Raised => Err(BackendError)
  }

  /** A success message and a failure message are never the same text. */
  lemma MessagesDistinguishOutcomes(job1: Job, job2: Job, status: string)
    ensures Message(job1, Archived) != Message(job2, NotCopied(status))
  {
    var m1, m2 := Message(job1, Archived).value, Message(job2, NotCopied(status)).value;
    assert m1[0] == 'A' && m2[0] == 'C';
  }

  /** `archive_blob`: prepare, then run the copy phase on a fresh backend. */
  method ArchiveBlob(store: Backend, blobName: string, ingestContainer: string, getDest: string -> Result<Destination>,
                     env: map<string, string>, timestamp: string) returns (r: Result<string>)
    requires store.log == [] && store.statusReads == 0
    modifies store
    ensures match Prepare(blobName, ingestContainer, getDest, env, timestamp)
      case Err(fault) => r == Err(fault) && store.log == []
      case Ok(job) =>
        var run := Execute(store.script, job.target, job.source, job.original);
        store.log == run.log && r == Message(job, run.finish)
  {
    var prepared := Prepare(blobName, ingestContainer, getDest, env, timestamp);
    match prepared {
      case Err(fault) =>
        r := Err(fault);
      case Ok(job) =>
        var finish := CopyAndFinalise(store, job.target, job.source, job.original);
        r := Message(job, finish);
    }
  }

  /** With the hard-coded router and the `production` container, `archive_blob`
      plans exactly the copy the handler of function_code plans for the blob
      named in the URL, and fails on the same missing setting. */
  lemma SameJobAsHandler(url: string, env: map<string, string>, timestamp: string)
    requires url != ""
    ensures var blobName := ExtractBlobName(url, FunctionApp.IngestContainer);
      var getDest := (name: string) => Ok(FunctionApp.GetArchiveDest(name));
      FunctionApp.Prepare(Some(url), env, timestamp) ==
        match Prepare(blobName, FunctionApp.IngestContainer, getDest, env, timestamp)
        case Ok(job) => Go(job)
        case Err(fault) => Stop(Failed(fault))
  {
  }

  /** The scenario of a copy confirmed on the first read: the message names
      the archive blob. */
  lemma ConfirmedOnFirstReadMessage(job: Job)
    ensures var run := Execute(Script([Success], {}), job.target, job.source, job.original);
      Message(job, run.finish) == Ok(ArchivedPrefix + job.target.container + "/" + job.target.name)
  {
    SuccessOnFirstRead(job.target, job.source, job.original);
  }

  /** The scenario of a copy that stays pending for all 30 reads: the message
      reports the pending status and nothing was deleted. */
  lemma PendingThroughoutMessage(job: Job)
    ensures var run := Execute(Script([], {}), job.target, job.source, job.original);
      && Message(job, run.finish) == Ok(FailedPrefix + job.blobName + ": " + Pending)
      && forall k :: 0 <= k < |run.log| ==> !run.log[k].DeleteBlob?
  {
    PendingThroughoutTimesOut(job.target, job.source, job.original);
  }
}

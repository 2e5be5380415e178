/** The storage backend an invocation talks to, reduced to what the archiver
    observes: a scripted sequence of copy statuses, scripted failures, and a
    log of every call issued. */
module Storage {
  import opened Common

  /** A blob in a container of one of the storage accounts. */
  datatype BlobRef = BlobRef(container: string, name: string)

  /** Where a server-side copy reads from: a blob client's URL, or an explicit
      (SAS-signed) URL. */
  datatype CopySource = SourceBlob(blob: BlobRef) | SourceUrl(url: string)

  /** The calls the archiver issues. */
  datatype Action =
    | StartCopy(target: BlobRef, source: CopySource)
    | ReadCopyStatus(target: BlobRef)
    | SetArchiveTier(target: BlobRef)
    | DeleteBlob(blob: BlobRef)

  /** The settings holding the connection strings of the two accounts. */
  const IngestConnectionKey := "IngestStorageConnection"
  const ArchiveConnectionKey := "ArchiveStorageConnection"

  const Pending := "pending"
  const Success := "success"

  /** How the backend will behave: the copy status returned by each successive
      status read (reads beyond the script find the copy still pending), and
      the positions, in call order, of the calls that raise. */
  datatype Script = Script(statuses: seq<string>, faults: set<nat>) {
    function StatusAt(read: nat): string {
      if read < |statuses| then statuses[read] else Pending
    }

    predicate Raises(call: nat) {
      call in faults
    }
  }

  class Backend {
    const script: Script
    /** Every call issued so far, in order, including one that raised. */
    var log: seq<Action>
    /** How many status reads have been issued. */
    var statusReads: nat

    constructor (script: Script)
      ensures this.script == script && log == [] && statusReads == 0
    {
      this.script := script;
      log := [];
      statusReads := 0;
    }

    /** `start_copy_from_url`; `ok` is false when the call raised. */
    method StartCopyFromUrl(target: BlobRef, source: CopySource) returns (ok: bool)
      modifies this
      ensures log == old(log) + [StartCopy(target, source)] && statusReads == old(statusReads)
      ensures ok == !script.Raises(|old(log)|)
    {
      ok := !script.Raises(|log|);
      log := log + [StartCopy(target, source)];
    }

    /** `get_blob_properties().copy.status`; `None` when the call raised. */
    method GetCopyStatus(target: BlobRef) returns (status: Option<string>)
      modifies this
      ensures log == old(log) + [ReadCopyStatus(target)] && statusReads == old(statusReads) + 1
      ensures status == if script.Raises(|old(log)|) then None else Some(script.StatusAt(old(statusReads)))
    {
      status := if script.Raises(|log|) then None else Some(script.StatusAt(statusReads));
      log := log + [ReadCopyStatus(target)];
      statusReads := statusReads + 1;
    }

    /** `set_standard_blob_tier(StandardBlobTier.Archive)`. */
    method SetStandardBlobTierArchive(target: BlobRef) returns (ok: bool)
      modifies this
      ensures log == old(log) + [SetArchiveTier(target)] && statusReads == old(statusReads)
      ensures ok == !script.Raises(|old(log)|)
    {
      ok := !script.Raises(|log|);
      log := log + [SetArchiveTier(target)];
    }

    /** `delete_blob`. */
    method Delete(blob: BlobRef) returns (ok: bool)
      modifies this
      ensures log == old(log) + [DeleteBlob(blob)] && statusReads == old(statusReads)
      ensures ok == !script.Raises(|old(log)|)
    {
      ok := !script.Raises(|log|);
      log := log + [DeleteBlob(blob)];
    }
  }
}

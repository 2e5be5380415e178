# azure-function-archiver, modelled in Dafny

The archiver is an Azure Function fired by an Event Grid notification when a
log file lands in the ingest storage account. It takes the blob name out of the
event URL and routes it by filename prefix to an archive container and
subfolder. It then builds a timestamped archive name and starts a server-side
copy into the archive account. It polls the copy status at most 30 times. Only
when the copy reports `success` does it set the Archive tier on the copy and
then delete the ingested blob.

The repository holds three entry points:
- the hard-coded handler in `function_code/__init__.py`;
- the configurable handler in `MoveToArchive/__init__.py`, with settings loaded
  from a file, routing through an archive map, and a SAS-signed copy source;
- `archive_blob` in `function_code/blob_handler.py`.

It also holds three routers:
- the `if`/`elif` chain;
- the nested tenant/log-type mapping of `function_code/utils.py`;
- the archive-map resolver of `shared/utils.py`.

The model has one module per concern:

| file | module | models |
|---|---|---|
| common.dfy | `Common` | `Option`, `Result`, the two kinds of fault, `Destination` |
| strings.dfy | `Strings` | ASCII `lower()`, `startswith`, `in`, `split(sep)[-1]`, the last index of a character |
| rules.dfy | `Rules` | an ordered prefix table matched first-match-wins |
| storage.dfy | `Storage` | the storage backend as a class: a scripted sequence of copy statuses, scripted raising calls, and a log of every call issued |
| copy_workflow.dfy | `CopyWorkflow` | copy, bounded poll and finalise, as a specification function `Execute` and as methods with loops (`PollCopy`, `CopyAndFinalise`) proved against it |
| naming.dfy | `Naming` | blob-name extraction, both archive-name variants, the SAS URL |
| function_app.dfy | `FunctionApp` | `function_code/__init__.py` |
| function_utils.dfy | `FunctionUtils` | `function_code/utils.py` |
| shared_utils.dfy | `SharedUtils` | `resolve_archive_dest` of `shared/utils.py` |
| move_to_archive.dfy | `MoveToArchive` | `MoveToArchive/__init__.py` |
| blob_handler.dfy | `BlobHandler` | `function_code/blob_handler.py` |

Each handler is split into two parts:
- a pure `Prepare` function covering everything before the first storage call.
  It either stops with an outcome or yields a `Job`.
- a method that runs `CopyAndFinalise` on a fresh `Backend`.

The method's postcondition ties the backend's call log and the reported
outcome to `Execute`. The safety and scenario lemmas are proved about
`Execute`.

Each backend call in the model has a position in the call log. A call raises
exactly when the script lists its position. A raising call is still logged
because it was issued. A status read beyond the scripted statuses finds the
copy still `pending`.

`str.split(sep)[-1]` is modelled exactly as Python computes it: the cuts are
found left to right, without overlap. Every container separator `/{container}/`
overlaps itself on its slashes, `/production/` included. So the last piece is
not always the text after the rightmost occurrence. For
`…/production/production/x.csv` both Python and the model give
`production/x.csv`, not `x.csv`. `ExtractBlobName` follows `split`.

The contract of `ExtractBlobName` does not by itself single out the piece in
such a case. For `a/p/p/x` with container `p`, both `p/x` (the result) and `x`
meet it. The piece is pinned down by `ExtractBlobNameIsPathWithoutNestedMarker`:
when the path after the first container segment holds no second one, the
extracted name is that path.

## Model

| member | source | states |
|---|---|---|
| Strings.Lower | function_code/__init__.py:14 | `lower()` keeps the length, lower-cases each letter and leaves nothing upper-case |
| Strings.LowerIdempotent | shared/utils.py:14 | lower-casing twice is lower-casing once |
| Strings.StartsWithTransitive | shared/utils.py:16 | a prefix of a prefix of a name is a prefix of the name |
| Strings.StartsWith | function_code/__init__.py:16 | `startswith` holds exactly when the prefix is no longer than the string and agrees with it character by character |
| Strings.Contains | function_code/__init__.py:59 | `in` holds exactly when a search from the start finds an occurrence |
| Strings.FindFrom | function_code/__init__.py:59 | the index found is an occurrence, with no occurrence before it; no result means no occurrence |
| Strings.SplitLast | function_code/__init__.py:60 | `split(sep)[-1]` is a suffix of the string and contains no `sep` |
| Strings.SplitLastBoundary | function_code/__init__.py:59-62 | without `sep` the last piece is the whole string; otherwise `sep` ends exactly where the last piece begins |
| Strings.LastIndexOf | function_code/__init__.py:70-71 | none exactly when the character is absent; otherwise it is at that index and not after it |
| Rules.FirstMatch | shared/utils.py:15-19 | the index found is the first rule whose prefix starts the name; none means no rule matches |
| Rules.FirstMatchUnique | shared/utils.py:15-19 | a matching rule with no earlier match is the first match |
| Rules.Route | function_code/__init__.py:14-43 | with no rule matching the route is the fallback; a route other than the fallback is the target of a matching rule |
| Rules.RouteFallsBack | function_code/__init__.py:42-43 | with no first match the route is the fallback |
| Rules.RouteIsFirstMatchingRule | function_code/__init__.py:14-43 | the first matching rule decides the route |
| Rules.UpperCasePrefixNeverMatches | shared/utils.py:14-16 | a prefix with an upper-case letter never matches a lower-cased name |
| Rules.ShadowedRuleNeverWins | function_code/utils.py:26-30 | a later rule whose prefix extends an earlier rule's prefix never decides a route |
| FunctionApp.GetArchiveDest | function_code/__init__.py:10-43 | the result is one of the listed containers and subfolders; container `other` exactly for the fallback `other/misc` |
| FunctionApp.GetArchiveDestIsFirstMatch | function_code/__init__.py:14-43 | the chain is the first-match router over its eleven prefixes in chain order, falling back to `other/misc` |
| FunctionApp.GetArchiveDestIgnoresCase | function_code/__init__.py:14 | routing a name and routing its lower-cased form agree |
| FunctionApp.GetArchiveDestTotal | function_code/__init__.py:42-43 | a name matching none of the prefixes goes to `other/misc` |
| FunctionApp.Prepare | function_code/__init__.py:52-85 | no URL (absent or empty) is reported as such; with a URL it goes ahead exactly when both connection settings are present, and otherwise reports `IngestStorageConnection` if that one is missing, else `ArchiveStorageConnection`; the job's blob is the one `ExtractBlobName` takes from the URL with `production`, copied from `production`, routed and renamed, then deleted |
| FunctionApp.MoveToArchive | function_code/__init__.py:46-107 | a stopped invocation makes no storage call; otherwise the call log and the outcome are those of `Execute` on the prepared job |
| FunctionApp.AuditLogRoute | function_code/__init__.py:16-17 | `audit_log_kpmgukdsp_20240101.csv` goes to `sap-dsp`, `audit` |
| FunctionApp.AuditLogName | function_code/__init__.py:70-77 | at `20240601-100000` the archive name is `audit/audit_log_kpmgukdsp_20240101_20240601-100000.csv` |
| FunctionApp.AuditLogExtension | function_code/__init__.py:70-72 | that name splits into base `audit_log_kpmgukdsp_20240101` and extension `.csv` |
| FunctionApp.NoExtensionRoute | function_code/__init__.py:42-43 | `eventlog` goes to `other/misc` |
| FunctionApp.NoExtensionName | function_code/__init__.py:73-77 | `eventlog` is archived as `misc/eventlog_<timestamp>`, with no trailing dot |
| FunctionApp.HandlerDeletesOnlyConfirmedSource | function_code/__init__.py:84-101 | every delete targets the ingested blob in `production`, comes right after the Archive tier was set on the copy, and happens only for a confirmed copy |
| FunctionUtils.GetArchiveDest | function_code/utils.py:1-31 | the result is one of the listed containers and subfolders |
| FunctionUtils.SearchLogTypes | function_code/utils.py:27-29 | no result exactly when no log type of the tenant from index `i` on gives a matching `{log_type}_{tenant}` prefix; a result is the destination of one that does |
| FunctionUtils.SearchTenants | function_code/utils.py:26-30 | no result exactly when the inner search finds nothing for every tenant from index `i` on; a result is one tenant's inner-search result |
| FunctionUtils.MappingDestinationsListed | function_code/utils.py:2-23 | every destination in the mapping is one of the listed containers and subfolders |
| FunctionUtils.LookupAppend | function_code/utils.py:26-30 | a lookup in two concatenated tables is decided by the first table when it matches |
| FunctionUtils.SearchLogTypesIsLookup | function_code/utils.py:27-29 | the inner loop is a first-match lookup over the tenant's `{log_type}_{tenant}` rules |
| FunctionUtils.SearchTenantsIsLookup | function_code/utils.py:26-30 | the nested loops are a first-match lookup over the flattened table |
| FunctionUtils.MappingsFlattenToChain | function_code/utils.py:2-23 | flattening the mapping in insertion order gives the chain's eleven rules in the chain's order |
| FunctionUtils.AgreesWithChain | function_code/utils.py:1-31 | the nested router and the `if`/`elif` chain agree on every file name |
| FunctionUtils.AppLogOfOtherTenantFallsBack | function_code/utils.py:2-31 | `app_log_kpmgukcis_x` falls back to `other/misc`, because only `kpmgukdsp` has an `app_log` entry |
| SharedUtils.ContainerFor | shared/utils.py:17-21 | a matched rule gives its key's value exactly when that value is present and non-empty, else a missing-key error naming the key |
| SharedUtils.DefaultDestination | shared/utils.py:22 | no match gives `DefaultArchiveContainer` with `misc`, or a missing-key error when that setting is absent |
| SharedUtils.ResolveFrom | shared/utils.py:15-22 | every error is a missing key that is absent or empty |
| SharedUtils.ResolveArchiveDest | shared/utils.py:13-22 | every error is a missing key that is absent or empty |
| SharedUtils.ResolveFromFirstMatch | shared/utils.py:15-22 | the loop from entry `i` is decided by the first matching entry at or after `i`, else by the default |
| SharedUtils.ResolveIsFirstMatch | shared/utils.py:13-22 | the first matching entry of the lower-cased name decides, without trying later entries even when its key is missing; no match gives the default |
| SharedUtils.LaterRulesIrrelevant | shared/utils.py:15-21 | entries after the first match play no part |
| SharedUtils.OtherKeysIrrelevant | shared/utils.py:17-22 | only the one consulted setting affects the result |
| SharedUtils.UpperCaseRuleNeverMatches | shared/utils.py:14-16 | an entry whose prefix holds an upper-case letter never matches |
| Naming.ExtractBlobName | function_code/__init__.py:59-62 | the blob name is a suffix of the URL; after `/{container}/` when that occurs, containing no such marker; otherwise after the last `/`, or the whole URL without a `/` |
| Naming.BlobPathAfterContainer | MoveToArchive/__init__.py:25 | the path after the first container segment, preceded by it with no earlier one, or the `split` result when the URL holds no container segment |
| Naming.BlobPathAfterContainerIsPath | MoveToArchive/__init__.py:25 | for `{host}/{container}/{path}` with the segment first occurring after the host, the blob path is `path`, whatever it contains |
| Naming.ExtractBlobNameIsPathWithoutNestedMarker | function_code/__init__.py:59-62 | `split(marker)[-1]` equals the blob path whenever that path holds no second container segment |
| Naming.MarkerFollowsHost | MoveToArchive/__init__.py:25 | in `{host}/{container}/{path}` the container segment occurs right after the host |
| Naming.ExtractBlobNameCutsNestedPath | MoveToArchive/__init__.py:25 | for a path holding a second container segment, the extracted name is not the path |
| Naming.NestedPathExample | MoveToArchive/__init__.py:25 | for `h/p/a/p/b` and container `p` the path is `a/p/b` but the extracted name is `b` |
| Naming.ExtractBlobNameIsSplitAtMarker | MoveToArchive/__init__.py:25 | where the URL holds the container segment, the name is the last piece of `split` at that segment |
| Naming.SplitAtLastDot | MoveToArchive/__init__.py:31 | `rsplit('.', 1)`: base, dot and extension rebuild the name, and the extension has no dot; without a dot the extension is empty |
| Naming.SplitExtension | function_code/__init__.py:70-75 | base and extension rebuild the name; the extension is empty exactly when there is no dot, and otherwise starts with the last dot |
| Naming.ArchiveName | function_code/__init__.py:70-77 | `{subfolder}/{base}_{timestamp}{ext}`, split at the last dot; a name without a dot gets no extension |
| Naming.ArchiveNameOfSplit | function_code/__init__.py:77 | the archive name in terms of the `(base, ext)` split |
| Naming.DistinctTimestampsDistinctNames | function_code/__init__.py:76-77 | two timestamps of equal width give two different archive names for the same blob |
| Naming.ArchiveNameTrimmed | MoveToArchive/__init__.py:31-33 | `{subfolder}/{base}_{timestamp}.{ext}`, except that an empty extension after a trailing dot is dropped together with the dot |
| Naming.NamingVariantsDiffer | MoveToArchive/__init__.py:31-33 | the two namings agree unless the name ends in a dot, which only the `function_code` naming keeps |
| Naming.SasUrl | MoveToArchive/__init__.py:38-39 | the source URL, `?`, then a suffix of the connection string holding no `SharedAccessSignature=`, immediately preceded by that marker when present, or the whole string when absent |
| Storage.Backend.constructor | function_code/__init__.py:82-85 | a fresh backend has issued no call |
| Storage.Backend.StartCopyFromUrl | function_code/__init__.py:89 | logs the copy request; raises exactly when scripted |
| Storage.Backend.GetCopyStatus | function_code/__init__.py:93 | logs the read; returns the next scripted status unless scripted to raise |
| Storage.Backend.SetStandardBlobTierArchive | function_code/__init__.py:100 | logs the tier change; raises exactly when scripted |
| Storage.Backend.Delete | function_code/__init__.py:101 | logs the delete; raises exactly when scripted |
| CopyWorkflow.PollFrom | function_code/__init__.py:92-96 | polling issues 1 to 30 reads; all but the last saw `pending` without raising; it stops at the first other status, at a raise, or at the 30th read |
| CopyWorkflow.Report | function_code/__init__.py:99-107 | the invocation reports archived exactly on a completed finalise, naming the archive blob; a non-success status is reported with the blob and that status; an exception in the copy phase is reported as a backend failure |
| CopyWorkflow.Execute | function_code/__init__.py:89-104 | the copy is started first; at most 1 + 30 + 2 calls are issued; archived only for a confirmed copy, with the delete as the last call; a non-archived status is never `success` |
| CopyWorkflow.ExceptionEndsRun | function_code/__init__.py:87-107 | an exception aborts every later step: every call but the last went through, and the phase ends `Raised` exactly when its last call raised |
| CopyWorkflow.PollCopy | function_code/__init__.py:92-96 | the loop issues exactly the reads of `PollFrom` and ends as it does |
| CopyWorkflow.CopyAndFinalise | function_code/__init__.py:89-101 | the calls issued and the end reached are those of `Execute` |
| CopyWorkflow.DeleteOnlyAfterConfirmedSuccess | function_code/__init__.py:99-101 | a delete happens only for a confirmed copy, as the last call, right after the tier change, on the source blob |
| CopyWorkflow.FinaliseIffConfirmed | function_code/__init__.py:99-101 | the tier change happens exactly for a confirmed copy; the delete happens exactly when the tier change also did not raise; archived exactly when both went through |
| CopyWorkflow.PollingIsBounded | function_code/__init__.py:89-96 | one copy start, then 1 to 30 reads, then at most the tier change and the delete; reads stop at the first non-pending status |
| CopyWorkflow.UnconfirmedReportsLastStatus | function_code/__init__.py:103-104 | an unconfirmed copy reports the last status read: never `success`, `pending` only after 30 reads, and nothing was finalised |
| CopyWorkflow.NeverDone | function_code/__init__.py:92-96 | a copy that stays pending is read until the 30th read |
| CopyWorkflow.SuccessOnFirstRead | function_code/__init__.py:89-102 | `success` on the first read: copy, one read, tier change, delete, archived |
| CopyWorkflow.PendingThroughoutTimesOut | function_code/__init__.py:92-104 | `pending` on all 30 reads: 30 reads, no tier change, no delete, reported as pending |
| CopyWorkflow.FailureOnThirdReadStops | function_code/__init__.py:92-104 | `failed` on the third read: exactly three reads, no delete |
| MoveToArchive.Prepare | MoveToArchive/__init__.py:12-39 | settings are read in source order and the first one missing is reported: `ConfigPath`, then (after the URL check) `IngestContainerName`, then the resolver's own error, then `IngestStorageConnection`, then `ArchiveStorageConnection`; every error is a missing or empty setting; it goes ahead exactly when every setting is present, the URL is non-empty and the route resolves; the job's blob is the one `ExtractBlobName` takes from the URL with the configured ingest container, routed by the archive map, named without a trailing dot, copied from the SAS-signed URL, and deleted from the ingest container |
| MoveToArchive.HandleEvent | MoveToArchive/__init__.py:9-66 | a stopped invocation makes no storage call; otherwise the call log and the outcome are those of `Execute` on the prepared job |
| MoveToArchive.ResolutionErrorStopsBeforeCopy | MoveToArchive/__init__.py:24-28 | a routing error ends the invocation with that error, before the copy |
| MoveToArchive.DeletesOnlyConfirmedSource | MoveToArchive/__init__.py:54-59 | every delete targets the ingested blob in the configured ingest container, comes right after the tier change, and happens only for a confirmed copy |
| MoveToArchive.CopySourceIsSigned | MoveToArchive/__init__.py:36-39 | the copy reads the event URL followed by `?` and the signature taken from the ingest connection string |
| MoveToArchive.DeletesBlobOtherThanCopied | MoveToArchive/__init__.py:25-59 | for a blob path holding a second container segment, the copy reads the URL's blob but the delete targets a different blob |
| MoveToArchive.NamingDropsTrailingDot | MoveToArchive/__init__.py:31-33 | the archive name equals the `function_code` one, except that a trailing dot is dropped |
| BlobHandler.Prepare | function_code/blob_handler.py:5-19 | the router is consulted first and its error propagates; a missing connection setting is an error; the job copies the blob from the given container into the router's container under the timestamped name |
| BlobHandler.Message | function_code/blob_handler.py:29-33 | `Archived to {container}/{name}` on success, `Copy failed for {blob}: {status}` otherwise; an exception propagates |
| BlobHandler.MessagesDistinguishOutcomes | function_code/blob_handler.py:32-33 | a success message never equals a failure message |
| BlobHandler.ArchiveBlob | function_code/blob_handler.py:5-33 | an error before the copy makes no storage call; otherwise the call log and the result are those of `Execute` on the prepared job |
| BlobHandler.SameJobAsHandler | function_code/blob_handler.py:5-21 | with the hard-coded router and `production`, it plans the same copy as the `function_code` handler and fails on the same missing setting |
| BlobHandler.ConfirmedOnFirstReadMessage | function_code/blob_handler.py:29-32 | success on the first read returns the archive location |
| BlobHandler.PendingThroughoutMessage | function_code/blob_handler.py:23-33 | pending throughout returns the blob and `pending`, and nothing is deleted |

## Findings

| source | as written | input that shows it | evidently intended | confidence | as-written member | corrected member |
|---|---|---|---|---|---|---|
| MoveToArchive/__init__.py:25 | the blob name is `url.split(f"/{c}/")[-1]`, the piece after the last cut; the copy reads the blob at the URL (line 44) but the delete targets `(c, blob_name)` (lines 58-59) | container `p`, URL `h/p/a/p/b`: blob `a/p/b` is copied, blob `b` is deleted | the blob name is the whole path after the first `/{c}/`, so the deleted blob is the copied one | high, not executed | MoveToArchive.DeletesBlobOtherThanCopied, Naming.NestedPathExample | Naming.BlobPathAfterContainer, Naming.BlobPathAfterContainerIsPath |

The handler models keep the code as written, so `MoveToArchive.Prepare` and
`FunctionApp.Prepare` use `ExtractBlobName`. By
`ExtractBlobNameIsPathWithoutNestedMarker` the corrected name is the same for
every blob path without a second container segment. In `function_code` both
the copy and the delete use the extracted name. There a nested path makes the
copy read a different blob, and the delete follows the copy's blob.

## Left out

- Azure SDK calls are not modelled. Each is reduced to what the archiver observes: an entry in a call log, a scripted copy status and a scripted exception. Credentials, networking and the copy that keeps running on the server after polling gives up are not modelled.
- `BlobServiceClient.from_connection_string` is not modelled. A malformed connection string that makes it raise is not modelled either; only a missing setting is.
- `src_blob.url` is computed by the SDK. The copy source is modelled as a reference to the source blob (`SourceBlob`).
- `time.sleep(1)` between status reads is left out, as is any notion of elapsed time.
- `datetime.utcnow().strftime('%Y%m%d-%H%M%S')` is a clock read. The timestamp is a parameter; its format is not modelled.
- `load_env_config` and `load_archive_map` read JSON files. The environment is a map holding the settings after loading. The archive map is an ordered rule table in the file's key order. Entries that are not two-element lists are not modelled.
- `event.get_json()` and `event_data.get("url")` are replaced by an optional URL string. A URL value that is not a string is not modelled.
- Logging is not modelled. Each handler's final log line becomes its returned `Outcome`, and a missing URL is the `NoUrl` outcome.
- Every exception caught at the top of a handler is modelled as a `Failed` outcome carrying one of two faults: a missing setting or a backend error.
- The Function App registration (`func.FunctionApp()` and the trigger decorator) is not modelled.
- `str.lower()` is modelled for ASCII letters only. Unicode case mapping is not modelled.
- Concurrency between invocations is not modelled. Two invocations for the same blob in the same second produce the same archive name.
- Strings.Lower: states ASCII lower-casing, weaker than Python's full Unicode `lower()`.
- Naming.DistinctTimestampsDistinctNames: states distinctness only for timestamps of equal width, which the fixed timestamp format guarantees.

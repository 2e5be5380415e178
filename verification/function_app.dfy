/** function_code/__init__.py: the hard-coded router and the event handler
    that copies a freshly ingested blob into the archive account. */
module FunctionApp {
  import opened Common
  import opened Strings
  import opened Rules
  import opened Storage
  import opened CopyWorkflow
  import opened Naming

  /** The bucket for names no rule recognises. */
  const Fallback := Destination("other", "misc")

  /** `get_archive_dest`: an if/elif chain of prefix tests on the lower-cased name. */
  function GetArchiveDest(filename: string): (d: Destination)
    ensures d.container in {"sap-dsp", "sap-cis", "sap-iag", "sap-mrm", "sap-btp-abap", "other"}
    ensures d.subfolder in {"audit", "event", "spaces-db", "misc"}
    ensures d.container == "other" <==> d == Fallback
  {
    var fname := Lower(filename);
    // SAP DSP
    if StartsWith(fname, "audit_log_kpmgukdsp") then Destination("sap-dsp", "audit")
    else if StartsWith(fname, "event_log_kpmgukdsp") then Destination("sap-dsp", "event")
    else if StartsWith(fname, "app_log_kpmgukdsp") then Destination("sap-dsp", "spaces-db")
    // SAP CIS
    else if StartsWith(fname, "audit_log_kpmgukcis") then Destination("sap-cis", "audit")
    else if StartsWith(fname, "event_log_kpmgukcis") then Destination("sap-cis", "event")
    // SAP IAG
    else if StartsWith(fname, "audit_log_kpmgukiag") then Destination("sap-iag", "audit")
    else if StartsWith(fname, "event_log_kpmgukiag") then Destination("sap-iag", "event")
    // SAP MRM
    else if StartsWith(fname, "audit_log_kpmgukmrm") then Destination("sap-mrm", "audit")
    else if StartsWith(fname, "event_log_kpmgukmrm") then Destination("sap-mrm", "event")
    // SAP BTP-ABAP
    else if StartsWith(fname, "audit_log_kpmguks4") then Destination("sap-btp-abap", "audit")
    else if StartsWith(fname, "event_log_kpmguks4") then Destination("sap-btp-abap", "event")
    else Fallback
  }

  /** The eleven rules of the chain, in the order the chain tests them. */
  const ChainRules: seq<Rule<Destination>> := [
    Rule("audit_log_kpmgukdsp", Destination("sap-dsp", "audit")),
    Rule("event_log_kpmgukdsp", Destination("sap-dsp", "event")),
    Rule("app_log_kpmgukdsp", Destination("sap-dsp", "spaces-db")),
    Rule("audit_log_kpmgukcis", Destination("sap-cis", "audit")),
    Rule("event_log_kpmgukcis", Destination("sap-cis", "event")),
    Rule("audit_log_kpmgukiag", Destination("sap-iag", "audit")),
    Rule("event_log_kpmgukiag", Destination("sap-iag", "event")),
    Rule("audit_log_kpmgukmrm", Destination("sap-mrm", "audit")),
    Rule("event_log_kpmgukmrm", Destination("sap-mrm", "event")),
    Rule("audit_log_kpmguks4", Destination("sap-btp-abap", "audit")),
    Rule("event_log_kpmguks4", Destination("sap-btp-abap", "event"))
  ]

  /** The chain is the first-match router over `ChainRules` with the fallback
      bucket: its branch order is the table order. */
  lemma GetArchiveDestIsFirstMatch(filename: string)
    ensures GetArchiveDest(filename) == Route(ChainRules, Lower(filename), Fallback)
  {
    var fname := Lower(filename);
    var r := FirstMatch(ChainRules, fname);
    if r.Some? {
      var k := r.value;
      if k == 0 {
        assert StartsWith(fname, ChainRules[0].prefix);
      } else if k == 1 {
        assert StartsWith(fname, ChainRules[1].prefix);
        assert !StartsWith(fname, ChainRules[0].prefix);
      } else if k == 2 {
        assert StartsWith(fname, ChainRules[2].prefix);
        assert !StartsWith(fname, ChainRules[0].prefix);
        assert !StartsWith(fname, ChainRules[1].prefix);
      } else if k == 3 {
        assert StartsWith(fname, ChainRules[3].prefix);
        assert !StartsWith(fname, ChainRules[0].prefix);
        assert !StartsWith(fname, ChainRules[1].prefix);
        assert !StartsWith(fname, ChainRules[2].prefix);
      } else if k == 4 {
        assert StartsWith(fname, ChainRules[4].prefix);
        assert !StartsWith(fname, ChainRules[0].prefix);
        assert !StartsWith(fname, ChainRules[1].prefix);
        assert !StartsWith(fname, ChainRules[2].prefix);
        assert !StartsWith(fname, ChainRules[3].prefix);
      } else if k == 5 {
        assert StartsWith(fname, ChainRules[5].prefix);
        assert !StartsWith(fname, ChainRules[0].prefix);
        assert !StartsWith(fname, ChainRules[1].prefix);
        assert !StartsWith(fname, ChainRules[2].prefix);
        assert !StartsWith(fname, ChainRules[3].prefix);
        assert !StartsWith(fname, ChainRules[4].prefix);
      } else if k == 6 {
        assert StartsWith(fname, ChainRules[6].prefix);
        assert !StartsWith(fname, ChainRules[0].prefix);
        assert !StartsWith(fname, ChainRules[1].prefix);
        assert !StartsWith(fname, ChainRules[2].prefix);
        assert !StartsWith(fname, ChainRules[3].prefix);
        assert !StartsWith(fname, ChainRules[4].prefix);
        assert !StartsWith(fname, ChainRules[5].prefix);
      } else if k == 7 {
        assert StartsWith(fname, ChainRules[7].prefix);
        assert !StartsWith(fname, ChainRules[0].prefix);
        assert !StartsWith(fname, ChainRules[1].prefix);
        assert !StartsWith(fname, ChainRules[2].prefix);
        assert !StartsWith(fname, ChainRules[3].prefix);
        assert !StartsWith(fname, ChainRules[4].prefix);
        assert !StartsWith(fname, ChainRules[5].prefix);
        assert !StartsWith(fname, ChainRules[6].prefix);
      } else if k == 8 {
        assert StartsWith(fname, ChainRules[8].prefix);
        assert !StartsWith(fname, ChainRules[0].prefix);
        assert !StartsWith(fname, ChainRules[1].prefix);
        assert !StartsWith(fname, ChainRules[2].prefix);
        assert !StartsWith(fname, ChainRules[3].prefix);
        assert !StartsWith(fname, ChainRules[4].prefix);
        assert !StartsWith(fname, ChainRules[5].prefix);
        assert !StartsWith(fname, ChainRules[6].prefix);
        assert !StartsWith(fname, ChainRules[7].prefix);
      } else if k == 9 {
        assert StartsWith(fname, ChainRules[9].prefix);
        assert !StartsWith(fname, ChainRules[0].prefix);
        assert !StartsWith(fname, ChainRules[1].prefix);
        assert !StartsWith(fname, ChainRules[2].prefix);
        assert !StartsWith(fname, ChainRules[3].prefix);
        assert !StartsWith(fname, ChainRules[4].prefix);
        assert !StartsWith(fname, ChainRules[5].prefix);
        assert !StartsWith(fname, ChainRules[6].prefix);
        assert !StartsWith(fname, ChainRules[7].prefix);
        assert !StartsWith(fname, ChainRules[8].prefix);
      } else {
        assert StartsWith(fname, ChainRules[10].prefix);
        assert !StartsWith(fname, ChainRules[0].prefix);
        assert !StartsWith(fname, ChainRules[1].prefix);
        assert !StartsWith(fname, ChainRules[2].prefix);
        assert !StartsWith(fname, ChainRules[3].prefix);
        assert !StartsWith(fname, ChainRules[4].prefix);
        assert !StartsWith(fname, ChainRules[5].prefix);
        assert !StartsWith(fname, ChainRules[6].prefix);
        assert !StartsWith(fname, ChainRules[7].prefix);
        assert !StartsWith(fname, ChainRules[8].prefix);
        assert !StartsWith(fname, ChainRules[9].prefix);
      }
    } else {
      GetArchiveDestTotal(filename);
    }
  }

  /** Routing ignores the case of the file name. */
  lemma GetArchiveDestIgnoresCase(filename: string)
    ensures GetArchiveDest(filename) == GetArchiveDest(Lower(filename))
  {
    LowerIdempotent(filename);
  }

  /** A name matching none of the eleven prefixes lands in the fallback bucket. */
  lemma GetArchiveDestTotal(filename: string)
    requires forall j :: 0 <= j < |ChainRules| ==> !StartsWith(Lower(filename), ChainRules[j].prefix)
    ensures GetArchiveDest(filename) == Destination("other", "misc")
  {
    var fname := Lower(filename);
    assert !StartsWith(fname, ChainRules[0].prefix) && !StartsWith(fname, ChainRules[1].prefix);
    assert !StartsWith(fname, ChainRules[2].prefix) && !StartsWith(fname, ChainRules[3].prefix);
    assert !StartsWith(fname, ChainRules[4].prefix) && !StartsWith(fname, ChainRules[5].prefix);
    assert !StartsWith(fname, ChainRules[6].prefix) && !StartsWith(fname, ChainRules[7].prefix);
    assert !StartsWith(fname, ChainRules[8].prefix) && !StartsWith(fname, ChainRules[9].prefix);
    assert !StartsWith(fname, ChainRules[10].prefix);
  }

  /** The ingest container name fixed in the handler. */
  const IngestContainer := "production"

  /** The steps of `MoveToArchive` before the first storage call: the URL
      check, blob name, route, archive name and connection settings. */
  function Prepare(url: Option<string>, env: map<string, string>, timestamp: string): (plan: Plan)
    ensures url == None || url == Some("") <==> plan == Stop(NoUrl)
    ensures plan.Stop? && plan != Stop(NoUrl) ==>
      || (plan.outcome == Failed(MissingKey(IngestConnectionKey)) && IngestConnectionKey !in env)
      || (plan.outcome == Failed(MissingKey(ArchiveConnectionKey)) && ArchiveConnectionKey !in env)
    ensures plan.Go? <==> url.Some? && url.value != "" && IngestConnectionKey in env && ArchiveConnectionKey in env
    ensures url.Some? && url.value != "" && !(IngestConnectionKey in env && ArchiveConnectionKey in env) ==>
      plan == Stop(Failed(MissingKey(if IngestConnectionKey !in env then IngestConnectionKey else ArchiveConnectionKey)))
    ensures plan.Go? ==>
      var job := plan.job;
      && job.blobName == ExtractBlobName(url.value, IngestContainer)
      && IsSuffix(job.blobName, url.value)
      && job.original == BlobRef(IngestContainer, job.blobName)
      && job.source == SourceBlob(job.original)
      && job.target.container == GetArchiveDest(job.blobName).container
      && job.target.name == ArchiveName(GetArchiveDest(job.blobName).subfolder, job.blobName, timestamp)
  {
    if url.None? || url.value == "" then Stop(NoUrl)
    else
      var blobName := ExtractBlobName(url.value, IngestContainer);
      var dest := GetArchiveDest(blobName);
      var archiveName := ArchiveName(dest.subfolder, blobName, timestamp);
      if IngestConnectionKey !in env then Stop(Failed(MissingKey(IngestConnectionKey)))
      else if ArchiveConnectionKey !in env then Stop(Failed(MissingKey(ArchiveConnectionKey)))
      else
        var source := BlobRef(IngestContainer, blobName);
        Go(Job(blobName, BlobRef(dest.container, archiveName), SourceBlob(source), source))
  }

  /** The event handler: prepare, then run the copy phase; every exception is
      caught and reported. The backend is fresh for each invocation. */
  method MoveToArchive(store: Backend, url: Option<string>, env: map<string, string>, timestamp: string) returns (outcome: Outcome)
    requires store.log == [] && store.statusReads == 0
    modifies store
    ensures match Prepare(url, env, timestamp)
      case Stop(o) => outcome == o && store.log == []
      case Go(job) =>
        var run := Execute(store.script, job.target, job.source, job.original);
        store.log == run.log && outcome == Report(job, run.finish)
  {
    var plan := Prepare(url, env, timestamp);
    match plan {
      case Stop(o) =>
        outcome := o;
      case Go(job) =>
        var finish := CopyAndFinalise(store, job.target, job.source, job.original);
        outcome := Report(job, finish);
    }
  }

  /** The routing example: an SAP DSP audit log goes to `sap-dsp`, `audit`. */
  lemma AuditLogRoute()
    ensures GetArchiveDest("audit_log_kpmgukdsp_20240101.csv") == Destination("sap-dsp", "audit")
  {
    var name := "audit_log_kpmgukdsp_20240101.csv";
    assert forall i :: 0 <= i < 19 ==> !IsUpper(name[i]);
    assert StartsWith(Lower(name), "audit_log_kpmgukdsp");
  }

  /** The naming example: at 2024-06-01 10:00:00 the audit log is archived as
      `audit/audit_log_kpmgukdsp_20240101_20240601-100000.csv`. */
  lemma AuditLogName()
    ensures ArchiveName("audit", "audit_log_kpmgukdsp_20240101.csv", "20240601-100000")
      == "audit/audit_log_kpmgukdsp_20240101_20240601-100000.csv"
  {
    ArchiveNameOfSplit("audit", "audit_log_kpmgukdsp_20240101.csv", "20240601-100000");
    AuditLogExtension();
    AuditLogConcat();
  }

  /** The pieces of the example name, joined. */
  lemma AuditLogConcat()
    ensures "audit" + "/" + "audit_log_kpmgukdsp_20240101" + "_" + "20240601-100000" + ".csv"
      == "audit/audit_log_kpmgukdsp_20240101_20240601-100000.csv"
  {
    assert "audit" + "/" == "audit/";
    assert "audit/" + "audit_log_kpmgukdsp_20240101" == "audit/audit_log_kpmgukdsp_20240101";
    assert "audit/audit_log_kpmgukdsp_20240101" + "_" == "audit/audit_log_kpmgukdsp_20240101_";
    assert "audit/audit_log_kpmgukdsp_20240101_" + "20240601-100000" == "audit/audit_log_kpmgukdsp_20240101_20240601-100000";
  }

  /** The example's extension is `.csv`, split at its only dot. */
  lemma AuditLogExtension()
    ensures SplitExtension("audit_log_kpmgukdsp_20240101.csv") == ("audit_log_kpmgukdsp_20240101", ".csv")
  {
    var name := "audit_log_kpmgukdsp_20240101.csv";
    assert name[28] == '.' && name[29..] == "csv";
    assert LastIndexOf(name, '.') == Some(28);
    assert SplitAtLastDot(name) == (name[..28], name[29..]);
    assert name[..28] == "audit_log_kpmgukdsp_20240101";
  }

  /** A name matching no prefix lands in `other/misc`. */
  lemma NoExtensionRoute()
    ensures GetArchiveDest("eventlog") == Fallback
  {
    assert forall j :: 0 <= j < |ChainRules| ==> |ChainRules[j].prefix| > |"eventlog"|;
    GetArchiveDestTotal("eventlog");
  }

  /** A name without a dot is archived as `misc/<name>_<timestamp>`, with no
      trailing dot. */
  lemma NoExtensionName(timestamp: string)
    ensures ArchiveName(Fallback.subfolder, "eventlog", timestamp) == "misc/eventlog_" + timestamp
  {
    assert '.' !in "eventlog";
    assert "misc" + "/" + "eventlog" + "_" == "misc/eventlog_";
  }

  /** End to end: the handler deletes only the ingested blob it copied, only
      after setting the Archive tier on the copy, and only for a confirmed copy;
      without a URL it issues no storage call at all. */
  lemma HandlerDeletesOnlyConfirmedSource(url: Option<string>, env: map<string, string>, timestamp: string, script: Script)
    ensures Prepare(url, env, timestamp).Go? ==>
      var job := Prepare(url, env, timestamp).job;
      var log := Execute(script, job.target, job.source, job.original).log;
      forall k :: 0 <= k < |log| && log[k].DeleteBlob? ==>
        && log[k] == DeleteBlob(BlobRef(IngestContainer, job.blobName))
        && 0 < k && log[k - 1] == SetArchiveTier(job.target)
        && ConfirmedSuccess(script)
  {
    if Prepare(url, env, timestamp).Go? {
      var job := Prepare(url, env, timestamp).job;
      DeleteOnlyAfterConfirmedSuccess(script, job.target, job.source, job.original);
    }
  }
}

/** The copy / bounded poll / finalise sequence every entry point runs: start a
    server-side copy, read its status at most 30 times until it is no longer
    pending, and only on `success` set the Archive tier and then delete the
    source. */
module CopyWorkflow {
  import opened Common
  import opened Storage

  const MaxPolls := 30

  /** How polling ended: the number of status reads issued, whether the last
      one raised, and otherwise the status it returned. */
  datatype Poll = Poll(count: nat, raised: bool, status: string)

  /** Polling from read number `read` (the first read is call number 1, right
      after the copy was started). */
  function PollFrom(script: Script, read: nat): (p: Poll)
    requires read < MaxPolls
    decreases MaxPolls - read
    ensures read < p.count <= MaxPolls
    ensures p.raised <==> script.Raises(p.count)
    ensures forall i :: read <= i < p.count - 1 ==> script.StatusAt(i) == Pending && !script.Raises(i + 1)
    ensures !p.raised ==> p.status == script.StatusAt(p.count - 1)
    ensures !p.raised ==> p.status != Pending || p.count == MaxPolls
  {
    if script.Raises(read + 1) then Poll(read + 1, true, "")
    else if script.StatusAt(read) != Pending || read + 1 == MaxPolls then Poll(read + 1, false, script.StatusAt(read))
    else PollFrom(script, read + 1)
  }

  /** One read of the poll: it raises, ends polling, or leaves the rest of
      the poll to the next read. */
  lemma PollStep(script: Script, read: nat)
    requires read < MaxPolls
    ensures script.Raises(read + 1) ==> PollFrom(script, read) == Poll(read + 1, true, "")
    ensures !script.Raises(read + 1) && (script.StatusAt(read) != Pending || read + 1 == MaxPolls) ==>
      PollFrom(script, read) == Poll(read + 1, false, script.StatusAt(read))
    ensures !script.Raises(read + 1) && script.StatusAt(read) == Pending && read + 1 < MaxPolls ==>
      PollFrom(script, read) == PollFrom(script, read + 1)
  {
  }

  /** The end of an invocation's copy phase. */
  datatype Finish = Archived | NotCopied(status: string) | Raised

  /** One blob to move: its name, the archive blob it is copied into, where
      the copy reads from, and the ingested blob deleted afterwards. */
  datatype Job = Job(blobName: string, target: BlobRef, source: CopySource, original: BlobRef)

  /** How an event handler ends. A missing URL is reported as such rather
      than silently dropped. */
  datatype Outcome =
    | NoUrl
    | Failed(fault: Fault)
    | NotArchived(blobName: string, status: string)
    | ArchivedTo(container: string, name: string)

  /** The pure part of a handler: either it stops before touching storage, or
      it has a job for the copy phase. */
  datatype Plan = Stop(outcome: Outcome) | Go(job: Job)

  /** A handler's outcome once the copy phase of `job` ended with `finish`;
      exceptions are caught and reported. */
  function Report(job: Job, finish: Finish): (o: Outcome)
    ensures o.ArchivedTo? <==> finish == Archived
    ensures o.ArchivedTo? ==> o == ArchivedTo(job.target.container, job.target.name)
    ensures finish.NotCopied? ==> o == NotArchived(job.blobName, finish.status)
    ensures finish == Raised ==> o == Failed(BackendError)
  {
    match finish
    case Archived => ArchivedTo(job.target.container, job.target.name)
    case NotCopied(status) => NotArchived(job.blobName, status)
    case Raised => Failed(BackendError)
  }

  /** What the backend sees and what the copy phase concludes. */
  datatype Run = Run(finish: Finish, log: seq<Action>)

  function Reads(target: BlobRef, n: nat): (r: seq<Action>)
    ensures |r| == n && forall k :: 0 <= k < n ==> r[k] == ReadCopyStatus(target)
  {
    seq(n, _ => ReadCopyStatus(target))
  }

  /** One more status read extends the log by one read. */
  lemma ReadsGrow(start: seq<Action>, target: BlobRef, n: nat)
    ensures start + Reads(target, n) + [ReadCopyStatus(target)] == start + Reads(target, n + 1)
  {
    assert Reads(target, n) + [ReadCopyStatus(target)] == Reads(target, n + 1);
  }

  /** The copy phase against a scripted backend: copy `source` into `target`,
      poll, and on success archive `target` and delete `blob`. */
  function Execute(script: Script, target: BlobRef, source: CopySource, blob: BlobRef): (run: Run)
    ensures 1 <= |run.log| <= 1 + MaxPolls + 2 && run.log[0] == StartCopy(target, source)
    ensures run.finish == Archived ==> ConfirmedSuccess(script) && run.log[|run.log| - 1] == DeleteBlob(blob)
    ensures run.finish.NotCopied? ==> run.finish.status != Success
  {
    var started := [StartCopy(target, source)];
    if script.Raises(0) then Run(Raised, started)
    else
      var p := PollFrom(script, 0);
      var polled := started + Reads(target, p.count);
      if p.raised then Run(Raised, polled)
      else if p.status != Success then Run(NotCopied(p.status), polled)
      else if script.Raises(p.count + 1) then Run(Raised, polled + [SetArchiveTier(target)])
      else if script.Raises(p.count + 2) then Run(Raised, polled + [SetArchiveTier(target), DeleteBlob(blob)])
      else Run(Archived, polled + [SetArchiveTier(target), DeleteBlob(blob)])
  }

  /** The copy was started and polling ended, without an exception, on `success`. */
  predicate ConfirmedSuccess(script: Script) {
    !script.Raises(0) && var p := PollFrom(script, 0); !p.raised && p.status == Success
  }

  /** The bounded poll: the `for _ in range(30)` loop that reads the copy
      status and breaks at the first status other than pending. */
  method PollCopy(store: Backend, target: BlobRef) returns (p: Poll)
    requires store.statusReads == 0 && |store.log| == 1
    modifies store
    ensures store.log == old(store.log) + Reads(target, p.count) && store.statusReads == p.count
    ensures p == PollFrom(store.script, 0)
  {
    ghost var script := store.script;
    ghost var start := store.log;
    var status := Pending;
    var polls := 0;
    while polls < MaxPolls
      invariant 0 <= polls <= MaxPolls && store.statusReads == polls
      invariant store.log == start + Reads(target, polls)
      invariant polls < MaxPolls ==> PollFrom(script, 0) == PollFrom(script, polls)
      invariant polls == MaxPolls ==> PollFrom(script, 0) == Poll(polls, false, status)
    {
      PollStep(script, polls);
      ReadsGrow(start, target, polls);
      var read := store.GetCopyStatus(target);
      polls := polls + 1;
      if read.None? {
        return Poll(polls, true, "");
      }
      status := read.value;
      if status != Pending {
        return Poll(polls, false, status);
      }
    }
    return Poll(polls, false, status);
  }

  /** The copy phase: start the copy, poll, then on `success` set the Archive
      tier and delete the source. An exception from any call ends the phase. */
  method CopyAndFinalise(store: Backend, target: BlobRef, source: CopySource, blob: BlobRef) returns (finish: Finish)
    requires store.log == [] && store.statusReads == 0
    modifies store
    ensures var run := Execute(store.script, target, source, blob);
      store.log == run.log && finish == run.finish
  {
    var started := store.StartCopyFromUrl(target, source);
    if !started {
      return Raised;
    }
    var p := PollCopy(store, target);
    ExecuteBranches(store.script, target, source, blob);
    ghost var polled := [StartCopy(target, source)] + Reads(target, p.count);
    assert store.log == polled && |polled| == p.count + 1;
    if p.raised {
      return Raised;
    }
    if p.status == Success {
      var tiered := store.SetStandardBlobTierArchive(target);
      assert tiered == !store.script.Raises(p.count + 1);
      if !tiered {
        return Raised;
      }
      var deleted := store.Delete(blob);
      assert deleted == !store.script.Raises(p.count + 2);
      assert store.log == polled + [SetArchiveTier(target), DeleteBlob(blob)];
      if !deleted {
        return Raised;
      }
      return Archived;
    }
    return NotCopied(p.status);
  }

  /** Safety: a delete is issued only after the copy was confirmed, as the last
      call, right after the Archive tier was set on the copy, and on the source. */
  lemma DeleteOnlyAfterConfirmedSuccess(script: Script, target: BlobRef, source: CopySource, blob: BlobRef)
    ensures var log := Execute(script, target, source, blob).log;
      forall k :: 0 <= k < |log| && log[k].DeleteBlob? ==>
        && ConfirmedSuccess(script)
        && k == |log| - 1 && log[k] == DeleteBlob(blob)
        && 0 < k && log[k - 1] == SetArchiveTier(target)
  {
    var log := Execute(script, target, source, blob).log;
    if !script.Raises(0) {
      var p := PollFrom(script, 0);
      var polled := [StartCopy(target, source)] + Reads(target, p.count);
      assert forall k :: 0 <= k < |polled| ==> !polled[k].DeleteBlob?;
      if !p.raised && p.status == Success && !script.Raises(p.count + 1) {
        assert log == polled + [SetArchiveTier(target), DeleteBlob(blob)];
      } else {
        assert log == polled || log == polled + [SetArchiveTier(target)];
      }
    }
  }

  /** No status read from read number `read` on, except the last one polling
      issues, raised. */
  lemma {:induction false} PollReadsBeforeLastGoThrough(script: Script, read: nat)
    requires read < MaxPolls
    decreases MaxPolls - read
    ensures forall k :: read < k < PollFrom(script, read).count ==> !script.Raises(k)
  {
    if !script.Raises(read + 1) && script.StatusAt(read) == Pending && read + 1 < MaxPolls {
      PollReadsBeforeLastGoThrough(script, read + 1);
    }
  }

  /** The copy phase after a copy start that went through, branch by branch:
      how polling ended decides the calls that follow and how the phase ends. */
  lemma ExecuteBranches(script: Script, target: BlobRef, source: CopySource, blob: BlobRef)
    requires !script.Raises(0)
    ensures var run := Execute(script, target, source, blob);
      var p := PollFrom(script, 0);
      var polled := [StartCopy(target, source)] + Reads(target, p.count);
      && (p.raised || p.status != Success ==> run == Run(if p.raised then Raised else NotCopied(p.status), polled))
      && (!p.raised && p.status == Success && script.Raises(p.count + 1) ==>
            run == Run(Raised, polled + [SetArchiveTier(target)]))
      && (!p.raised && p.status == Success && !script.Raises(p.count + 1) ==>
            run == Run(if script.Raises(p.count + 2) then Raised else Archived, polled + [SetArchiveTier(target), DeleteBlob(blob)]))
  {
  }

  /** The number of calls the copy phase issues after a copy start that went
      through, and whether it ends `Raised`, branch by branch. */
  lemma ExecuteLength(script: Script, target: BlobRef, source: CopySource, blob: BlobRef)
    requires !script.Raises(0)
    ensures var run := Execute(script, target, source, blob);
      var p := PollFrom(script, 0);
      && (p.raised || p.status != Success ==> |run.log| == 1 + p.count && (run.finish == Raised <==> p.raised))
      && (!p.raised && p.status == Success && script.Raises(p.count + 1) ==>
            |run.log| == 2 + p.count && run.finish == Raised)
      && (!p.raised && p.status == Success && !script.Raises(p.count + 1) ==>
            |run.log| == 3 + p.count && (run.finish == Raised <==> script.Raises(p.count + 2)))
  {
    ExecuteBranches(script, target, source, blob);
  }

  /** An exception ends the copy phase: the call that raised is the last one
      issued, every earlier call went through, and the phase reports `Raised`
      exactly when its last call raised. */
  lemma ExceptionEndsRun(script: Script, target: BlobRef, source: CopySource, blob: BlobRef)
    ensures var run := Execute(script, target, source, blob);
      && (run.finish == Raised <==> script.Raises(|run.log| - 1))
      && forall k :: 0 <= k < |run.log| - 1 ==> !script.Raises(k)
  {
    var run := Execute(script, target, source, blob);
    if !script.Raises(0) {
      var p := PollFrom(script, 0);
      ExecuteLength(script, target, source, blob);
      PollReadsBeforeLastGoThrough(script, 0);
      assert p.raised <==> script.Raises(p.count);
      forall k | 0 <= k < |run.log| - 1
        ensures !script.Raises(k)
      {
        assert k < p.count || k == p.count || k == p.count + 1;
      }
    }
  }

  /** Tier change and delete happen exactly when the copy is confirmed (the
      delete unless the tier change raised); the phase reports `Archived`
      exactly when both went through. */
  lemma FinaliseIffConfirmed(script: Script, target: BlobRef, source: CopySource, blob: BlobRef)
    ensures var run := Execute(script, target, source, blob);
      var n := PollFrom(script, 0).count;
      && (SetArchiveTier(target) in run.log <==> ConfirmedSuccess(script))
      && (DeleteBlob(blob) in run.log <==> ConfirmedSuccess(script) && !script.Raises(n + 1))
      && (run.finish == Archived <==> ConfirmedSuccess(script) && !script.Raises(n + 1) && !script.Raises(n + 2))
  {
    var run := Execute(script, target, source, blob);
    if !script.Raises(0) {
      var p := PollFrom(script, 0);
      var polled := [StartCopy(target, source)] + Reads(target, p.count);
      assert SetArchiveTier(target) !in polled && DeleteBlob(blob) !in polled;
    }
  }

  /** Bounded polling: the copy is started once, before anything else; at most
      30 status reads follow; every read but the last saw `pending`, and the
      last stopped the loop by raising, by a status other than pending, or by
      reaching the 30th read; only the tier change and the delete come after. */
  lemma PollingIsBounded(script: Script, target: BlobRef, source: CopySource, blob: BlobRef)
    requires !script.Raises(0)
    ensures var log := Execute(script, target, source, blob).log;
      var p := PollFrom(script, 0);
      && 1 <= p.count <= MaxPolls
      && log[..1 + p.count] == [StartCopy(target, source)] + Reads(target, p.count)
      && log[1 + p.count..] in {[], [SetArchiveTier(target)], [SetArchiveTier(target), DeleteBlob(blob)]}
      && (forall i :: 0 <= i < p.count - 1 ==> script.StatusAt(i) == Pending)
      && (!p.raised && p.count < MaxPolls ==> script.StatusAt(p.count - 1) != Pending)
  {
    var log := Execute(script, target, source, blob).log;
    var p := PollFrom(script, 0);
    var polled := [StartCopy(target, source)] + Reads(target, p.count);
    ExecuteBranches(script, target, source, blob);
    assert log[..1 + p.count] == polled;
    if !p.raised && p.status == Success {
      var tail := if script.Raises(p.count + 1) then [SetArchiveTier(target)]
        else [SetArchiveTier(target), DeleteBlob(blob)];
      assert log == polled + tail;
      assert log[1 + p.count..] == tail;
    } else {
      assert log == polled;
      assert log[1 + p.count..] == [];
    }
  }

  /** A copy that was not confirmed reports the last status read: never
      `success`, and `pending` only after all 30 reads. */
  lemma UnconfirmedReportsLastStatus(script: Script, target: BlobRef, source: CopySource, blob: BlobRef)
    ensures var run := Execute(script, target, source, blob);
      var p := PollFrom(script, 0);
      run.finish.NotCopied? ==>
        && run.finish.status == p.status == script.StatusAt(p.count - 1)
        && run.finish.status != Success
        && (run.finish.status == Pending ==> p.count == MaxPolls)
        && run.log == [StartCopy(target, source)] + Reads(target, p.count)
  {
  }

  /** A backend that never leaves `pending` is read from `read` up to the 30th read. */
  lemma {:induction false} NeverDone(read: nat)
    requires read < MaxPolls
    decreases MaxPolls - read
    ensures PollFrom(Script([], {}), read) == Poll(MaxPolls, false, Pending)
  {
    if read + 1 < MaxPolls {
      NeverDone(read + 1);
    }
  }

  /** Success on the first read: tier change, then delete, each once. */
  lemma SuccessOnFirstRead(target: BlobRef, source: CopySource, blob: BlobRef)
    ensures Execute(Script([Success], {}), target, source, blob) ==
      Run(Archived, [StartCopy(target, source), ReadCopyStatus(target), SetArchiveTier(target), DeleteBlob(blob)])
  {
    assert PollFrom(Script([Success], {}), 0) == Poll(1, false, Success);
  }

  /** Pending for all 30 reads: a timeout, nothing archived or deleted. */
  lemma PendingThroughoutTimesOut(target: BlobRef, source: CopySource, blob: BlobRef)
    ensures Execute(Script([], {}), target, source, blob) ==
      Run(NotCopied(Pending), [StartCopy(target, source)] + Reads(target, MaxPolls))
  {
    NeverDone(0);
  }

  /** `failed` on the third read: polling stops there, nothing is deleted. */
  lemma FailureOnThirdReadStops(target: BlobRef, source: CopySource, blob: BlobRef)
    ensures Execute(Script([Pending, Pending, "failed"], {}), target, source, blob) ==
      Run(NotCopied("failed"), [StartCopy(target, source)] + Reads(target, 3))
  {
    var script := Script([Pending, Pending, "failed"], {});
    assert script.StatusAt(2) == "failed";
    assert PollFrom(script, 2) == Poll(3, false, "failed");
    assert PollFrom(script, 1) == PollFrom(script, 2);
  }
}

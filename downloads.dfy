/** The download side of the module: `downloadModel`, `cancelDownload` and
    the queries on the model directory. The directory is a map from file
    name to contents, holding the published models and the `<name>.temp`
    files downloads write before publishing. A download is split into its
    admission (the synchronous part of `downloadModel`) and the end of its
    coroutine (`Finish`), which receives what the transfer produced. */
module Downloads {
  import opened Kotlin
  import opened Transfer
  import opened Registry

  /** The temporary file a download of `name` writes: `<name>.temp`. */
  function TempName(name: string): (r: string)
    ensures |r| == |name| + 5 && r[..|name|] == name
    ensures r != name
  {
    name + ".temp"
  }

  /** What a `downloadProgress` event reports. */
  datatype Status =
    | Downloading(bytesDownloaded: int, totalBytes: int, progress: Fraction)
    | Completed(bytesDownloaded: int, totalBytes: int)
    | Timeout
    | CancelledStatus
    | Error

  /** A `downloadProgress` event for a model; the `url` field it also
      carries is not modelled. */
  datatype Event = Event(modelName: string, status: Status)

  /** The `downloading` events of a model, one per progress callback. */
  function ProgressEvents(name: string, samples: seq<Sample>): (r: seq<Event>)
    ensures |r| == |samples|
    ensures forall i :: 0 <= i < |r| ==> r[i].modelName == name && r[i].status.Downloading?
    ensures forall i :: 0 <= i < |r| ==>
              r[i].status.bytesDownloaded == samples[i].bytesDownloaded
              && r[i].status.totalBytes == samples[i].totalBytes
              && r[i].status.progress == samples[i].progress
  {
    seq(|samples|, i requires 0 <= i < |samples| =>
      Event(name, Downloading(samples[i].bytesDownloaded, samples[i].totalBytes, samples[i].progress)))
  }

  /** How `downloadModel` answers at once. `Started` leaves the promise to
      the coroutine of job `id`. */
  datatype Admission = Refused(code: ErrorCode) | AlreadyPresent | Started(id: nat)

  /** How a download coroutine ends: `downloadWithTimeout` returned, or
      threw the `CancellationException` of its activity check (the outcome
      is then marked cancelled); the `withTimeout` deadline passed; another
      exception was thrown; or the job was cancelled before it ever ran.
      The samples are the progress callbacks made before the end. */
  datatype Ending =
    | Returned(outcome: Outcome)
    | TimedOut(samples: seq<Sample>)
    | Failed(samples: seq<Sample>)
    | NeverStarted

  /** The downloaded bytes are published under the model's name. */
  predicate Publishes(ending: Ending, renameOk: bool) {
    ending.Returned? && !ending.outcome.cancelled && renameOk
  }

  /** The progress callbacks a coroutine made before it ended. */
  function Reported(ending: Ending): seq<Sample> {
    match ending
    case Returned(outcome) => outcome.samples
    case TimedOut(samples) => samples
    case Failed(samples) => samples
    case NeverStarted => []
  }

  /** The model directory after a coroutine ended, against the directory
      before: untouched by a job that never ran; the downloaded bytes under
      the model's name after a publish; no model file after a failed rename;
      the model file left alone otherwise; and in every ending that ran, no
      temporary file. */
  ghost predicate DirectoryAfter(before: map<string, seq<Byte>>, after: map<string, seq<Byte>>,
                                 name: string, ending: Ending, renameOk: bool) {
    && (ending.NeverStarted? ==> after == before)
    && (Publishes(ending, renameOk) ==>
          after == (before - {TempName(name)})[name := ending.outcome.written])
    && (ending.Returned? && !ending.outcome.cancelled && !renameOk ==>
          after == before - {TempName(name), name})
    && (ending.TimedOut? || ending.Failed? || (ending.Returned? && ending.outcome.cancelled) ==>
          after == before - {TempName(name)})
  }

  /** The events a coroutine sends before it ends: its progress callbacks,
      then one event for the ending. A publish reports `completed` with the
      published length and the total, or the length when the total is not
      positive; a cancelled job follows it with `cancelled`. A failed
      rename or any other exception reports `error`, the deadline `timeout`,
      the activity check `cancelled`. A job that never ran sends nothing. */
  ghost predicate EventsAfter(before: seq<Event>, after: seq<Event>, name: string,
                              ending: Ending, renameOk: bool, cancelled: bool) {
    var progress := before + ProgressEvents(name, Reported(ending));
    && (ending.NeverStarted? ==> after == before)
    && (Publishes(ending, renameOk) ==>
          var written := ending.outcome.written;
          var total := if ending.outcome.totalBytes > 0 then ending.outcome.totalBytes else |written|;
          after == progress + [Event(name, Completed(|written|, total))]
                   + (if cancelled then [Event(name, CancelledStatus)] else []))
    && (ending.Returned? && !ending.outcome.cancelled && !renameOk ==>
          after == progress + [Event(name, Error)])
    && (ending.Returned? && ending.outcome.cancelled ==>
          after == progress + [Event(name, CancelledStatus)])
    && (ending.TimedOut? ==> after == progress + [Event(name, Timeout)])
    && (ending.Failed? ==> after == progress + [Event(name, Error)])
  }

  /** How the promise of a download is settled: a cancelled job is always
      rejected as cancelled; otherwise a publish resolves `true`, a timeout
      rejects with `ERR_DOWNLOAD_TIMEOUT`, and a failed rename or any other
      exception with `ERR_DOWNLOAD`. */
  ghost predicate SettledAs(promise: Promise<bool>, ending: Ending, renameOk: bool, cancelled: bool) {
    && (cancelled ==> promise == Settled(Rejected(ERR_DOWNLOAD_CANCELLED)))
    && (!cancelled && Publishes(ending, renameOk) ==> promise == Settled(Resolved(true)))
    && (!cancelled && ending.Returned? && !renameOk ==> promise == Settled(Rejected(ERR_DOWNLOAD)))
    && (!cancelled && ending.TimedOut? ==> promise == Settled(Rejected(ERR_DOWNLOAD_TIMEOUT)))
    && (!cancelled && ending.Failed? ==> promise == Settled(Rejected(ERR_DOWNLOAD)))
  }

  /** The ending is one a transfer can reach: a transfer that returned left
      what `downloadWithTimeout` returns for some response, clock and chunks;
      one cut short by the deadline or by an exception made the callbacks of
      the chunks it read before. */
  ghost predicate FromTransfer(ending: Ending) {
    match ending
    case Returned(o) =>
      exists header: Option<string>, contentLengthLong: Long, contentLength: Int32, start: Long, chunks: seq<Chunk> ::
        o == TransferOutcome(header, contentLengthLong, contentLength, start, chunks)
    case TimedOut(samples) =>
      exists totalBytes: int, start: Long, chunks: seq<Chunk> :: samples == Samples(totalBytes, start, chunks)
    case Failed(samples) =>
      exists totalBytes: int, start: Long, chunks: seq<Chunk> :: samples == Samples(totalBytes, start, chunks)
    case NeverStarted => true
  }

  /** The bound on the byte counts an ending reports: the counter a returned
      transfer ends with, `Long.MAX_VALUE` otherwise. */
  function CounterBound(ending: Ending): int {
    if ending.Returned? then ending.outcome.bytesDownloaded else LONG_MAX
  }

  /** Among `events`, no `downloading` event reports fewer bytes than an
      earlier one, and none more than `bound`. */
  predicate ProgressOrdered(events: seq<Event>, bound: int) {
    && (forall k, l :: 0 <= k < l < |events| && events[k].status.Downloading? && events[l].status.Downloading? ==>
          events[k].status.bytesDownloaded <= events[l].status.bytesDownloaded)
    && (forall k :: 0 <= k < |events| && events[k].status.Downloading? ==> events[k].status.bytesDownloaded <= bound)
  }

  /** The callbacks of an ending a transfer can reach never go back, and
      none passes the final counter. */
  lemma ReportedOrdered(ending: Ending)
    requires FromTransfer(ending)
    ensures CountsNondecreasing(Reported(ending))
    ensures CountsAtMost(Reported(ending), CounterBound(ending))
  {
    match ending
    case Returned(o) =>
      var header: Option<string>, contentLengthLong: Long, contentLength: Int32, start: Long, chunks: seq<Chunk> :|
        o == TransferOutcome(header, contentLengthLong, contentLength, start, chunks);
      SamplesNondecreasing(o.totalBytes, start, chunks[..FirstInactive(chunks)]);
    case TimedOut(samples) =>
      var totalBytes: int, start: Long, chunks: seq<Chunk> :| samples == Samples(totalBytes, start, chunks);
      SamplesNondecreasing(totalBytes, start, chunks);
    case Failed(samples) =>
      var totalBytes: int, start: Long, chunks: seq<Chunk> :| samples == Samples(totalBytes, start, chunks);
      SamplesNondecreasing(totalBytes, start, chunks);
    case NeverStarted =>
  }

  /** The `downloading` events of ordered callbacks are ordered the same way. */
  lemma ProgressEventsOrdered(name: string, samples: seq<Sample>, bound: int)
    requires CountsNondecreasing(samples) && CountsAtMost(samples, bound)
    ensures ProgressOrdered(ProgressEvents(name, samples), bound)
  {
  }

  /** Appending events that are not `downloading` events keeps them ordered. */
  lemma AppendTerminal(before: seq<Event>, progress: seq<Event>, terminal: seq<Event>, bound: int)
    requires ProgressOrdered(progress, bound)
    requires forall k :: 0 <= k < |terminal| ==> !terminal[k].status.Downloading?
    ensures (before + progress + terminal)[..|before|] == before
    ensures ProgressOrdered((before + progress + terminal)[|before|..], bound)
  {
    assert (before + progress + terminal)[|before|..] == progress + terminal;
  }

  /** The events a job sends as it ends are ordered: the `downloading`
      events never report fewer bytes than an earlier one, and none passes
      the counter the transfer ended with. */
  lemma EndingEventsOrdered(before: seq<Event>, after: seq<Event>, name: string,
                            ending: Ending, renameOk: bool, cancelled: bool)
    requires EventsAfter(before, after, name, ending, renameOk, cancelled)
    requires CountsNondecreasing(Reported(ending)) && CountsAtMost(Reported(ending), CounterBound(ending))
    ensures |before| <= |after| && after[..|before|] == before
    ensures ProgressOrdered(after[|before|..], CounterBound(ending))
  {
    var bound := CounterBound(ending);
    if ending.NeverStarted? {
      assert after[|before|..] == [];
    } else {
      var progress := ProgressEvents(name, Reported(ending));
      ProgressEventsOrdered(name, Reported(ending), bound);
      if Publishes(ending, renameOk) {
        var written := ending.outcome.written;
        var total := if ending.outcome.totalBytes > 0 then ending.outcome.totalBytes else |written|;
        AppendTerminal(before, progress, [Event(name, Completed(|written|, total))]
                                         + (if cancelled then [Event(name, CancelledStatus)] else []), bound);
      } else if ending.Returned? && !ending.outcome.cancelled {
        AppendTerminal(before, progress, [Event(name, Error)], bound);
      } else if ending.Returned? || ending.TimedOut? {
        AppendTerminal(before, progress, [Event(name, if ending.TimedOut? then Timeout else CancelledStatus)], bound);
      } else {
        AppendTerminal(before, progress, [Event(name, Error)], bound);
      }
    }
  }

  /** No name occurs twice. */
  predicate Distinct(names: seq<string>) {
    forall i, j :: 0 <= i < j < |names| ==> names[i] != names[j]
  }

  /** The registry is consistent with the jobs, job ids are below the next
      one, and a job's promise is settled exactly when the job has ended. */
  ghost predicate Bookkept(t: Table, promises: map<nat, Promise<bool>>, nextJob: nat) {
    && Consistent(t)
    && (forall id :: id in t.jobs ==> id < nextJob)
    && promises.Keys == t.jobs.Keys
    && (forall id :: id in t.jobs ==> (t.jobs[id].finished <==> !promises[id].Pending?))
  }

  /** Launching a job keeps the bookkeeping: the new id is fresh and its
      promise pending. */
  lemma LaunchKeepsBookkept(t: Table, promises: map<nat, Promise<bool>>, nextJob: nat, name: string)
    requires Bookkept(t, promises, nextJob) && name !in t.active
    ensures nextJob !in t.jobs
    ensures Bookkept(Register(t, name, nextJob), promises[nextJob := Pending], nextJob + 1)
  {
  }

  /** Ending a job keeps the bookkeeping: its promise was pending and is now
      settled. A cancelled job has no entry of its own left to remove. */
  lemma EndKeepsBookkept(t: Table, promises: map<nat, Promise<bool>>, nextJob: nat, id: nat, reply: Reply<bool>)
    requires Bookkept(t, promises, nextJob) && id in t.jobs && !t.jobs[id].finished
    ensures promises[id] == Pending
    ensures Bookkept(Registry.Finish(t, id), promises[id := Settled(reply)], nextJob)
    ensures t.jobs[id].cancelled ==> Registry.Finish(t, id).active == t.active
  {
  }

  class DownloadManager {
    /** `activeDownloads`: model name to the id of its job. */
    var activeDownloads: map<string, nat>
    /** Every download coroutine launched so far. */
    var jobs: map<nat, Job>
    /** The model directory. */
    var files: map<string, seq<Byte>>
    /** The promise each launched download settles. */
    var promises: map<nat, Promise<bool>>
    /** The `downloadProgress` events sent so far. */
    var events: seq<Event>
    /** The id the next launched job gets. */
    var nextJob: nat

    /** The registry and the jobs together. */
    function Registered(): Table
      reads this
    {
      Table(activeDownloads, jobs)
    }

    /** The registry is consistent with the jobs, ids are fresh, and a job's
        promise is settled exactly when the job has ended. */
    ghost predicate Valid()
      reads this
    {
      Bookkept(Registered(), promises, nextJob)
    }

    /** A module over a model directory, with no download under way. */
    constructor(stored: map<string, seq<Byte>>)
      ensures Valid()
      ensures files == stored && activeDownloads == map[] && jobs == map[]
      ensures promises == map[] && events == [] && nextJob == 0
    {
      activeDownloads := map[];
      jobs := map[];
      files := stored;
      promises := map[];
      events := [];
      nextJob := 0;
    }

    /** `downloadModel`: a model already being downloaded is refused; a
        model already in the directory is reported present unless
        `overwrite` is set; otherwise a job is launched and registered and
        its promise is left pending. */
    method DownloadModel(name: string, overwrite: bool) returns (r: Admission)
      requires Valid()
      modifies this
      ensures Valid()
      ensures name in old(activeDownloads) ==>
                r == Refused(ERR_ALREADY_DOWNLOADING) && unchanged(this)
      ensures name !in old(activeDownloads) && name in old(files) && !overwrite ==>
                r == AlreadyPresent && unchanged(this)
      ensures name !in old(activeDownloads) && (name !in old(files) || overwrite) ==>
                && r == Started(old(nextJob))
                && old(nextJob) !in old(jobs)
                && Registered() == Register(old(Registered()), name, old(nextJob))
                && promises == old(promises)[old(nextJob) := Pending]
                && files == old(files) && events == old(events)
                && nextJob == old(nextJob) + 1
    {
      if name in activeDownloads {
        return Refused(ERR_ALREADY_DOWNLOADING);
      }
      if name in files && !overwrite {
        return AlreadyPresent;
      }
      var id := nextJob;
      LaunchKeepsBookkept(Registered(), promises, nextJob, name);
      var t := Register(Registered(), name, id);
      activeDownloads, jobs := t.active, t.jobs;
      promises := promises[id := Pending];
      nextJob := nextJob + 1;
      r := Started(id);
    }

    /** `cancelDownload`: answers whether a download of the model was
        registered; if so its job is cancelled and the entry removed at
        once. The job's promise is settled later, when its coroutine ends. */
    method CancelDownload(name: string) returns (r: bool)
      requires Valid()
      modifies this
      ensures Valid()
      ensures r <==> name in old(activeDownloads)
      ensures name !in activeDownloads
      ensures Registered() == Cancel(old(Registered()), name)
      ensures files == old(files) && promises == old(promises)
      ensures events == old(events) && nextJob == old(nextJob)
    {
      r := name in activeDownloads;
      var t := Cancel(Registered(), name);
      activeDownloads, jobs := t.active, t.jobs;
    }

    /** The end of the coroutine of job `id`. A transfer that returned is
        published: the temporary file holds the bytes, an existing model file
        is deleted and the temporary file renamed over it. Every ending that
        ran sends its events and leaves no temporary file behind; the job's
        promise is settled once; and the job deregisters its own entry. A
        job cancelled before it ran touches no file and sends no event. A
        cancelled job's promise is always rejected with
        `ERR_DOWNLOAD_CANCELLED`, because its switch to the main dispatcher
        throws before it can settle anything else. */
    method Finish(id: nat, ending: Ending, renameOk: bool)
      requires Valid()
      requires id in jobs && !jobs[id].finished
      requires ending.NeverStarted? ==> jobs[id].cancelled
      requires ending.Returned? && ending.outcome.cancelled ==> jobs[id].cancelled
      requires FromTransfer(ending)
      modifies this
      ensures Valid()
      ensures Registered() == Registry.Finish(old(Registered()), id)
      ensures nextJob == old(nextJob)
      ensures old(promises)[id] == Pending
      ensures promises == old(promises)[id := promises[id]]
      ensures SettledAs(promises[id], ending, renameOk, old(jobs)[id].cancelled)
      ensures DirectoryAfter(old(files), files, old(jobs)[id].name, ending, renameOk)
      ensures !ending.NeverStarted? ==> TempName(old(jobs)[id].name) !in files
      ensures EventsAfter(old(events), events, old(jobs)[id].name, ending, renameOk, old(jobs)[id].cancelled)
      ensures |old(events)| <= |events| && ProgressOrdered(events[|old(events)|..], CounterBound(ending))
    {
      var job := jobs[id];
      var name := job.name;
      var t := Registry.Finish(Registered(), id);
      if ending.NeverStarted? {
        // the coroutine body never ran, so neither did its `finally` block
        EndKeepsBookkept(Registered(), promises, nextJob, id, Rejected(ERR_DOWNLOAD_CANCELLED));
        jobs := t.jobs;
        promises := promises[id := Settled(Rejected(ERR_DOWNLOAD_CANCELLED))];
        return;
      }
      PublishFiles(name, ending, renameOk);
      var after, reply := Conclude(events, name, ending, renameOk, job.cancelled);
      Settle(id, reply, after);
    }

    /** The last steps of a job that ran: the events become `after`, the
        job's promise is settled with `reply`, and the `finally` block
        deregisters the job. */
    method Settle(id: nat, reply: Reply<bool>, after: seq<Event>)
      requires Valid()
      requires id in jobs && !jobs[id].finished
      modifies this`activeDownloads, this`jobs, this`promises, this`events
      ensures Valid()
      ensures Registered() == Registry.Finish(old(Registered()), id)
      ensures old(promises)[id] == Pending
      ensures promises == old(promises)[id := Settled(reply)]
      ensures events == after
    {
      var t := Registry.Finish(Registered(), id);
      EndKeepsBookkept(Registered(), promises, nextJob, id, reply);
      events := after;
      promises := promises[id := Settled(reply)];
      activeDownloads, jobs := t.active, t.jobs;
    }

    /** What the coroutine does to the model directory: a transfer that
        returned leaves its bytes in the temporary file; to publish them an
        existing model file is deleted and the temporary file renamed over
        it; the `finally` block then deletes the temporary file if it is
        still there. */
    method PublishFiles(name: string, ending: Ending, renameOk: bool)
      requires !ending.NeverStarted?
      modifies this`files
      ensures TempName(name) !in files
      ensures DirectoryAfter(old(files), files, name, ending, renameOk)
    {
      var temp := TempName(name);
      if ending.Returned? {
        files := files[temp := ending.outcome.written];
        if !ending.outcome.cancelled {
          if name in files {
            files := files - {name};
          }
          if renameOk {
            files := (files - {temp})[name := files[temp]];
          }
        }
      }
      // the `finally` block
      if temp in files {
        files := files - {temp};
      }
    }

    /** The events a coroutine that ran sends after `before`, and the reply
        its promise gets. */
    method Conclude(before: seq<Event>, name: string, ending: Ending, renameOk: bool, cancelled: bool)
      returns (after: seq<Event>, reply: Reply<bool>)
      requires !ending.NeverStarted?
      requires ending.Returned? && ending.outcome.cancelled ==> cancelled
      requires FromTransfer(ending)
      ensures EventsAfter(before, after, name, ending, renameOk, cancelled)
      ensures SettledAs(Settled(reply), ending, renameOk, cancelled)
      ensures |before| <= |after| && ProgressOrdered(after[|before|..], CounterBound(ending))
    {
      var terminal: seq<Event>;
      match ending {
        case Returned(outcome) =>
          if outcome.cancelled {
            terminal := [Event(name, CancelledStatus)];
            reply := Rejected(ERR_DOWNLOAD_CANCELLED);
          } else if renameOk {
            var length := |outcome.written|;
            var total := if outcome.totalBytes > 0 then outcome.totalBytes else length;
            terminal := [Event(name, Completed(length, total))];
            if cancelled {
              terminal := terminal + [Event(name, CancelledStatus)];
            }
            reply := Resolved(true);
          } else {
            terminal := [Event(name, Error)];
            reply := Rejected(ERR_DOWNLOAD);
          }
        case TimedOut(_) =>
          terminal := [Event(name, Timeout)];
          reply := Rejected(ERR_DOWNLOAD_TIMEOUT);
        case Failed(_) =>
          terminal := [Event(name, Error)];
          reply := Rejected(ERR_DOWNLOAD);
      }
      // a cancelled job cannot settle its own promise: the completion
      // handler rejects it
      if cancelled {
        reply := Rejected(ERR_DOWNLOAD_CANCELLED);
      }
      after := before + ProgressEvents(name, Reported(ending)) + terminal;
      ReportedOrdered(ending);
      EndingEventsOrdered(before, after, name, ending, renameOk, cancelled);
    }

    /** `isModelDownloaded`: the model file exists and is not empty. */
    method IsModelDownloaded(name: string) returns (r: bool)
      ensures r <==> name in files && |files[name]| > 0
    {
      r := name in files && |files[name]| > 0;
    }

    /** `getDownloadedModels`: the name of every file in the model directory,
        temporary files included, each once, in no particular order. */
    method GetDownloadedModels() returns (names: seq<string>)
      ensures forall n :: n in names <==> n in files
      ensures Distinct(names)
    {
      names := [];
      var rest := files.Keys;
      while rest != {}
        invariant rest <= files.Keys
        invariant forall n :: n in files ==> (n in names <==> n !in rest)
        invariant forall n :: n in names ==> n in files
        invariant Distinct(names)
        decreases rest
      {
        var n :| n in rest;
        names := names + [n];
        rest := rest - {n};
      }
    }

    /** `deleteDownloadedModel`: answers whether the file existed, and
        removes it. */
    method DeleteDownloadedModel(name: string) returns (r: bool)
      requires Valid()
      modifies this
      ensures Valid()
      ensures r <==> name in old(files)
      ensures files == old(files) - {name}
      ensures Registered() == old(Registered()) && promises == old(promises)
      ensures events == old(events) && nextJob == old(nextJob)
    {
      r := name in files;
      if r {
        files := files - {name};
      }
    }
  }

  /** A published model is never a partial download: after a job ends, the
      file under the model's name either is what it was before or holds
      exactly the bytes the transfer returned. */
  lemma PublishIsAtomic(before: map<string, seq<Byte>>, after: map<string, seq<Byte>>,
                        name: string, ending: Ending, renameOk: bool)
    requires DirectoryAfter(before, after, name, ending, renameOk)
    ensures name in after ==>
              || (name in before && after[name] == before[name])
              || (Publishes(ending, renameOk) && after[name] == ending.outcome.written)
    ensures Publishes(ending, renameOk) ==> name in after
  {
  }
}

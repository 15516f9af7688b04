/** The registry of running downloads. `activeDownloads` maps a model name to
    the coroutine job downloading it: `downloadModel` adds the entry,
    `cancelDownload` cancels the job and removes the entry at once, and the
    job's own `finally` block removes the entry again when the coroutine
    ends. Jobs are named here by ids; the registry and the jobs it points to
    are kept together in a `Table`. */
module Registry {

  /** A download coroutine: the model it writes, whether it has been
      cancelled, and whether it has ended. */
  datatype Job = Job(name: string, cancelled: bool, finished: bool)

  /** `activeDownloads` (model name to job id) and every job launched so far. */
  datatype Table = Table(active: map<string, nat>, jobs: map<nat, Job>)

  /** Job `id` is still running and nobody has cancelled it. */
  predicate Running(jobs: map<nat, Job>, id: nat) {
    id in jobs && !jobs[id].cancelled && !jobs[id].finished
  }

  /** The registry tells the truth about the jobs: every entry is a running
      job for that model, and every running job is the entry for its model.
      So `activeDownloads.containsKey(name)` holds exactly while a download of
      `name` is under way. */
  ghost predicate Consistent(t: Table) {
    && (forall n :: n in t.active ==> Running(t.jobs, t.active[n]) && t.jobs[t.active[n]].name == n)
    && (forall id :: Running(t.jobs, id) ==> t.jobs[id].name in t.active && t.active[t.jobs[id].name] == id)
  }

  /** `activeDownloads[modelName] = downloadJob`: a new job is launched and
      registered for a model nobody is downloading. */
  function Register(t: Table, name: string, id: nat): (r: Table)
    requires name !in t.active && id !in t.jobs
    ensures Running(r.jobs, id) && r.jobs[id].name == name
    ensures name in r.active && r.active[name] == id
    ensures forall n :: n != name ==> (n in r.active <==> n in t.active)
    ensures forall n :: n != name && n in t.active ==> r.active[n] == t.active[n]
    ensures r.jobs.Keys == t.jobs.Keys + {id}
    ensures forall j :: j in t.jobs ==> r.jobs[j] == t.jobs[j]
    ensures Consistent(t) ==> Consistent(r)
  {
    Table(t.active[name := id], t.jobs[id := Job(name, false, false)])
  }

  /** `cancelDownload`: the registered job, if any, is cancelled and the entry
      removed; nothing else changes. */
  function Cancel(t: Table, name: string): (r: Table)
    ensures name !in r.active
    ensures forall n :: n != name ==> (n in r.active <==> n in t.active)
    ensures forall n :: n in r.active ==> r.active[n] == t.active[n]
    ensures name !in t.active ==> r == t
    ensures r.jobs.Keys == t.jobs.Keys
    ensures name in t.active && t.active[name] in t.jobs ==>
              r.jobs[t.active[name]] == t.jobs[t.active[name]].(cancelled := true)
    ensures forall j :: j in t.jobs && !(name in t.active && j == t.active[name]) ==> r.jobs[j] == t.jobs[j]
    ensures Consistent(t) ==> Consistent(r)
  {
    if name in t.active && t.active[name] in t.jobs then
      var id := t.active[name];
      Table(t.active - {name}, t.jobs[id := t.jobs[id].(cancelled := true)])
    else
      Table(t.active - {name}, t.jobs)
  }

  /** The `finally` block as the source writes it:
      `activeDownloads.remove(modelName)`, whichever job the entry is for. */
  function DeregisterAsWritten(active: map<string, nat>, name: string): (r: map<string, nat>)
    ensures name !in r
    ensures forall n :: n != name ==> (n in r <==> n in active)
    ensures forall n :: n in r ==> r[n] == active[n]
  {
    active - {name}
  }

  /** The `finally` block as intended: job `id` removes the entry for its
      model only when the entry is its own. */
  function Deregister(active: map<string, nat>, name: string, id: nat): (r: map<string, nat>)
    ensures !(name in r && r[name] == id)
    ensures forall n :: n in r <==> n in active && !(n == name && active[n] == id)
    ensures forall n :: n in r ==> r[n] == active[n]
  {
    if name in active && active[name] == id then active - {name} else active
  }

  /** Job `id` ends, deregistering with the source's `finally` block. */
  function FinishAsWritten(t: Table, id: nat): (r: Table)
    requires id in t.jobs
    ensures r.jobs == t.jobs[id := t.jobs[id].(finished := true)]
    ensures t.jobs[id].name !in r.active
    ensures forall n :: n != t.jobs[id].name ==> (n in r.active <==> n in t.active)
    ensures forall n :: n in r.active ==> r.active[n] == t.active[n]
  {
    var job := t.jobs[id];
    Table(DeregisterAsWritten(t.active, job.name), t.jobs[id := job.(finished := true)])
  }

  /** Job `id` ends, deregistering only its own entry. */
  function Finish(t: Table, id: nat): (r: Table)
    requires id in t.jobs
    ensures r.jobs == t.jobs[id := t.jobs[id].(finished := true)]
    ensures forall n :: n in t.active && t.active[n] != id ==> n in r.active && r.active[n] == t.active[n]
    ensures forall n :: n in r.active ==> n in t.active && r.active[n] == t.active[n]
    ensures !(t.jobs[id].name in r.active && r.active[t.jobs[id].name] == id)
    ensures Consistent(t) ==> Consistent(r)
  {
    var job := t.jobs[id];
    Table(Deregister(t.active, job.name, id), t.jobs[id := job.(finished := true)])
  }

  /** While the registry is consistent, at most one uncancelled download of
      a model runs at a time, and `downloadModel` refuses a second one. */
  lemma OneRunningPerName(t: Table, id1: nat, id2: nat)
    requires Consistent(t)
    requires Running(t.jobs, id1) && Running(t.jobs, id2)
    requires t.jobs[id1].name == t.jobs[id2].name
    ensures id1 == id2
    ensures t.jobs[id1].name in t.active
  {
  }

  /** The source's `finally` block breaks the registry: cancel a download,
      start a new one of the same model, and let the cancelled coroutine
      end. Its `finally` removes the new job's entry, so the new download
      runs unregistered and a third `downloadModel` of the same model is
      admitted while it still runs: two uncancelled downloads then write the
      same temporary file. */
  lemma {:induction false} StaleFinallyDropsSuccessor(t: Table, name: string, first: nat, second: nat, third: nat)
    requires Consistent(t) && name !in t.active
    requires first !in t.jobs && second !in t.jobs && third !in t.jobs
    requires first != second && second != third && first != third
    ensures var t1 := Register(t, name, first);
            var t2 := Cancel(t1, name);
            var t3 := Register(t2, name, second);
            var t4 := FinishAsWritten(t3, first);
            && Consistent(t3)
            && !Consistent(t4)
            && name !in t4.active
            && third !in t4.jobs
            && Running(Register(t4, name, third).jobs, second)
            && Running(Register(t4, name, third).jobs, third)
            && Register(t4, name, third).jobs[second].name == Register(t4, name, third).jobs[third].name
  {
    var t1 := Register(t, name, first);
    var t2 := Cancel(t1, name);
    var t3 := Register(t2, name, second);
    var t4 := FinishAsWritten(t3, first);
    assert Running(t4.jobs, second);
    assert !Consistent(t4);
  }

  /** With the corrected `finally`, the same sequence leaves the new
      download registered, so the third `downloadModel` is refused. */
  lemma {:induction false} FinishKeepsSuccessor(t: Table, name: string, first: nat, second: nat)
    requires Consistent(t) && name !in t.active
    requires first !in t.jobs && second !in t.jobs && first != second
    ensures var t3 := Register(Cancel(Register(t, name, first), name), name, second);
            var t4 := Finish(t3, first);
            && Consistent(t4)
            && name in t4.active && t4.active[name] == second
  {
  }
}

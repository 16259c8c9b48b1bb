/**
 The SQLite ledger of db.rs: its tables, the statements its functions execute, each one atomic,
 and the triggers that feed the event table. The clock is a parameter.
 */
module Ledger {
  import opened Optional

  type RepoId = nat
  type JobId = nat

  datatype JobState = Queued | Running | JobDone | Failed | Stopped

  /** The states `job_finished` is called with, and `stop_if_queued` sets. */
  predicate Terminal(s: JobState) { s.JobDone? || s.Failed? || s.Stopped? }

  datatype Job = Job(repo: Option<RepoId>, kind: string, spec: Option<string>, session: Option<string>,
                     state: JobState, parent: Option<JobId>, finishedAt: Option<int>)

  datatype Status = Status(dirty: bool, detached: bool, sync: string, head: string, headSha: string)

  /** The kinds the triggers give an event, and those it is recorded with. */
  datatype EventKind = StatusEvent | CommitEvent | Noted(name: string)

  datatype Event = Event(ts: int, kind: EventKind, repo: Option<RepoId>, detail: Option<string>,
                         shaBefore: Option<string>, shaAfter: Option<string>)

  datatype Tables = Tables(repos: set<RepoId>, claims: map<RepoId, string>, jobs: map<JobId, Job>,
                           status: map<RepoId, Status>, events: seq<Event>)

  const EMPTY := Tables({}, map[], map[], map[], [])

  // ---- the statements -----------------------------------------------------------------------

  datatype Statement =
    | AddRepo(repo: RepoId)
    | LookClaim(repo: RepoId)
    | InsertClaim(repo: RepoId, session: string)
    | Unclaim(repo: RepoId, session: string)
    | UnclaimForce(repo: RepoId)
    | TransferClaim(repo: RepoId, session: string)
    | RemoveRepo(repo: RepoId)
    | InsertJob(id: JobId, job: Job)
    | RecordFailure(id: JobId, job: Job, now: int)
    | JobRunning(id: JobId)
    | ClaimRunning(id: JobId)
    | StopIfQueued(id: JobId, now: int)
    | JobFinished(id: JobId, state: JobState, now: int)
    | PruneStaleJobs(cutoff: int)
    | UpsertStatus(repo: RepoId, row: Status, now: int)
    | RecordEvent(event: Event)
    | PruneStaleEvents(cutoff: int)
    | PruneMissing(gone: set<RepoId>)

  /** What a statement gives back. */
  datatype Answer = Changed(any: bool) | Session(held: Option<string>) | ConstraintFailed

  /** A reference to a repo is null or to a row that is there. */
  predicate RepoThere(t: Tables, repo: Option<RepoId>) { repo.Some? ==> repo.value in t.repos }

  /** No row names the repo. */
  predicate Unnamed(t: Tables, repo: RepoId) {
    && repo !in t.claims && repo !in t.status && (forall id :: id in t.jobs ==> t.jobs[id].repo != Some(repo))
    && forall k :: 0 <= k < |t.events| ==> t.events[k].repo != Some(repo)
  }

  /** `ev_status` */
  function StatusEvents(repo: RepoId, was: Status, row: Status, now: int): seq<Event> {
    if row.dirty == was.dirty && row.sync == was.sync then []
    else
      var detail := if row.dirty != was.dirty then (if row.dirty then "dirty" else "clean") else row.sync;
      [Event(now, StatusEvent, Some(repo), Some(detail), None, None)]
  }

  /** `ev_commit` */
  function CommitEvents(repo: RepoId, was: Status, row: Status, now: int): seq<Event> {
    if row.headSha == was.headSha || was.headSha == "" || row.headSha == "" then []
    else [Event(now, CommitEvent, Some(repo), None, Some(was.headSha), Some(row.headSha))]
  }

  /** A row of history that no longer names one of the repos. */
  function DetachEvent(e: Event, gone: set<RepoId>): Event {
    if e.repo.Some? && e.repo.value in gone then e.(repo := None) else e
  }

  function DetachEvents(es: seq<Event>, gone: set<RepoId>): (r: seq<Event>)
    ensures |r| == |es| && forall i :: 0 <= i < |es| ==> r[i] == DetachEvent(es[i], gone)
  {
    seq(|es|, i requires 0 <= i < |es| => DetachEvent(es[i], gone))
  }

  function DetachJob(j: Job, gone: set<RepoId>): Job {
    if j.repo.Some? && j.repo.value in gone then j.(repo := None) else j
  }

  function DetachJobs(js: map<JobId, Job>, gone: set<RepoId>): map<JobId, Job> {
    map id | id in js :: DetachJob(js[id], gone)
  }

  function SpecOf(j: Job): string { if j.spec.Some? then j.spec.value else "" }

  /** The row a restart of job `id` queues. */
  function CloneOf(j: Job, id: JobId): Job { Job(j.repo, j.kind, Some(SpecOf(j)), j.session, Queued, Some(id), None) }

  /** The row a failure is recorded in. */
  function FailedJob(repo: RepoId, kind: string): Job { Job(Some(repo), kind, None, None, Failed, None, None) }

  /** A job the retention sweep may delete. */
  predicate Stale(j: Job, cutoff: int) { Terminal(j.state) && j.finishedAt.Some? && j.finishedAt.value < cutoff }

  function StaleJobs(js: map<JobId, Job>, cutoff: int): set<JobId> { set id | id in js && Stale(js[id], cutoff) }

  /** The events from `cutoff` on, in order: what the retention sweep leaves. */
  function Recent(es: seq<Event>, cutoff: int): (r: seq<Event>)
    ensures |r| <= |es|
  {
    if es == [] then []
    else
      var e := es[|es| - 1];
      Recent(es[..|es| - 1], cutoff) + if e.ts >= cutoff then [e] else []
  }

  function Execute(t: Tables, s: Statement): (Tables, Answer) {
    match s
    case AddRepo(repo) => (t.(repos := t.repos + {repo}), Changed(repo !in t.repos))
    case LookClaim(repo) => (t, Session(if repo in t.claims then Some(t.claims[repo]) else None))
    case InsertClaim(repo, session) =>
      if repo in t.claims || repo !in t.repos then (t, ConstraintFailed)
      else (t.(claims := t.claims[repo := session]), Changed(true))
    case Unclaim(repo, session) =>
      if repo in t.claims && t.claims[repo] == session then (t.(claims := t.claims - {repo}), Changed(true))
      else (t, Changed(false))
    case UnclaimForce(repo) =>
      if repo in t.claims then (t.(claims := t.claims - {repo}), Changed(true)) else (t, Changed(false))
    case TransferClaim(repo, session) =>
      if repo in t.claims then (t.(claims := t.claims[repo := session]), Changed(true)) else (t, Changed(false))
    case RemoveRepo(repo) =>
      if repo !in t.repos then (t, Changed(false))
      else if !Unnamed(t, repo) then (t, ConstraintFailed)
      else (t.(repos := t.repos - {repo}), Changed(true))
    case InsertJob(id, job) =>
      if id in t.jobs || !RepoThere(t, job.repo) then (t, ConstraintFailed)
      else (t.(jobs := t.jobs[id := job.(state := Queued, finishedAt := None)]), Changed(true))
    case RecordFailure(id, job, now) =>
      if id in t.jobs || !RepoThere(t, job.repo) then (t, ConstraintFailed)
      else (t.(jobs := t.jobs[id := job.(state := Failed, finishedAt := Some(now))]), Changed(true))
    case JobRunning(id) =>
      if id in t.jobs then (t.(jobs := t.jobs[id := t.jobs[id].(state := Running)]), Changed(true))
      else (t, Changed(false))
    case ClaimRunning(id) =>
      if id in t.jobs && t.jobs[id].state.Queued? then
        (t.(jobs := t.jobs[id := t.jobs[id].(state := Running)]), Changed(true))
      else (t, Changed(false))
    case StopIfQueued(id, now) =>
      if id in t.jobs && t.jobs[id].state.Queued? then
        (t.(jobs := t.jobs[id := t.jobs[id].(state := Stopped, finishedAt := Some(now))]), Changed(true))
      else (t, Changed(false))
    case JobFinished(id, state, now) =>
      if id in t.jobs then
        (t.(jobs := t.jobs[id := t.jobs[id].(state := state, finishedAt := Some(now))]), Changed(true))
      else (t, Changed(false))
    case PruneStaleJobs(cutoff) =>
      var stale := StaleJobs(t.jobs, cutoff);
      (t.(jobs := t.jobs - stale), Changed(stale != {}))
    case UpsertStatus(repo, row, now) =>
      if repo in t.status then
        var was := t.status[repo];
        var events := t.events + StatusEvents(repo, was, row, now) + CommitEvents(repo, was, row, now);
        (t.(status := t.status[repo := row], events := events), Changed(true))
      else if repo !in t.repos then (t, ConstraintFailed)
      else (t.(status := t.status[repo := row]), Changed(true))
    case RecordEvent(e) =>
      if !RepoThere(t, e.repo) then (t, ConstraintFailed) else (t.(events := t.events + [e]), Changed(true))
    case PruneStaleEvents(cutoff) =>
      var left := Recent(t.events, cutoff);
      (t.(events := left), Changed(|left| < |t.events|))
    case PruneMissing(gone) =>
      (Tables(t.repos - gone, t.claims - gone, DetachJobs(t.jobs, gone), t.status - gone, DetachEvents(t.events, gone)),
       Changed(t.repos * gone != {}))
  }

  // ---- the database -------------------------------------------------------------------------

  datatype ClaimResult = Acquired | AlreadyMine | HeldBy(session: string) | QueryError

  class Database {
    var repos: set<RepoId>
    var claims: map<RepoId, string>
    var jobs: map<JobId, Job>
    var status: map<RepoId, Status>
    var events: seq<Event>

    ghost function Contents(): Tables
      reads this
    {
      Tables(repos, claims, jobs, status, events)
    }

    constructor ()
      ensures Contents() == EMPTY
    {
      repos, claims, jobs, status, events := {}, map[], map[], map[], [];
    }

    /** `claim`, undisturbed between its statements. */
    method Claim(repo: RepoId, session: string) returns (r: ClaimResult)
      modifies this
      ensures old(repo in claims) ==> Contents() == old(Contents())
      ensures old(repo in claims) ==>
        r == if old(claims)[repo] == session then AlreadyMine else HeldBy(old(claims)[repo])
      ensures old(repo !in claims) ==> Contents() == Execute(old(Contents()), InsertClaim(repo, session)).0
      ensures r.Acquired? <==> old(repo !in claims && repo in repos)
    {
      if repo in claims {
        return if claims[repo] == session then AlreadyMine else HeldBy(claims[repo]);
      }
      if repo in repos {
        claims := claims[repo := session];
        return Acquired;
      }
      return QueryError;
    }

    method UnclaimBy(repo: RepoId, session: string) returns (removed: bool)
      modifies this`claims
      ensures (Contents(), Changed(removed)) == Execute(old(Contents()), Unclaim(repo, session))
    {
      removed := repo in claims && claims[repo] == session;
      if removed { claims := claims - {repo}; }
    }

    method UnclaimAny(repo: RepoId) returns (removed: bool)
      modifies this`claims
      ensures (Contents(), Changed(removed)) == Execute(old(Contents()), UnclaimForce(repo))
    {
      removed := repo in claims;
      if removed { claims := claims - {repo}; }
    }

    method Transfer(repo: RepoId, session: string) returns (moved: bool)
      modifies this`claims
      ensures (Contents(), Changed(moved)) == Execute(old(Contents()), TransferClaim(repo, session))
    {
      moved := repo in claims;
      if moved { claims := claims[repo := session]; }
    }

    /** The row id SQLite gives an `INTEGER PRIMARY KEY`: one past the largest. */
    method NextJobId() returns (id: JobId)
      ensures id !in jobs && forall k :: k in jobs ==> k < id
    {
      id := 1;
      var keys := jobs.Keys;
      while keys != {}
        invariant forall k :: k in jobs && k !in keys ==> k < id
        decreases |keys|
      {
        var k :| k in keys;
        if k >= id { id := k + 1; }
        keys := keys - {k};
      }
    }

    /** `insert_job` */
    method Insert(repo: Option<RepoId>, kind: string, spec: string, session: Option<string>) returns (id: Option<JobId>)
      modifies this`jobs
      ensures id.None? ==> Contents() == old(Contents()) && !RepoThere(old(Contents()), repo)
      ensures id.Some? ==> id.value !in old(jobs) && RepoThere(old(Contents()), repo)
      ensures id.Some? ==> jobs == old(jobs)[id.value := Job(repo, kind, Some(spec), session, Queued, None, None)]
    {
      if repo.Some? && repo.value !in repos { return None; }
      var newId := NextJobId();
      jobs := jobs[newId := Job(repo, kind, Some(spec), session, Queued, None, None)];
      return Some(newId);
    }

    /** `remove_repo`: the foreign keys refuse it while a row names the repo. */
    method Remove(repo: RepoId) returns (removed: Option<bool>)
      modifies this`repos
      ensures (Contents(), if removed.Some? then Changed(removed.value) else ConstraintFailed) ==
        Execute(old(Contents()), RemoveRepo(repo))
    {
      if repo !in repos { return Some(false); }
      if repo in claims || repo in status { return None; }
      if exists id :: id in jobs && jobs[id].repo == Some(repo) { return None; }
      if exists k :: 0 <= k < |events| && events[k].repo == Some(repo) { return None; }
      repos := repos - {repo};
      return Some(true);
    }

    /** The insertion of `record_failure`, whose repo has been indexed before it. */
    method Fail(repo: RepoId, kind: string, now: int) returns (id: Option<JobId>)
      modifies this`jobs
      ensures id.None? <==> repo !in repos
      ensures id.None? ==> jobs == old(jobs)
      ensures id.Some? ==> id.value !in old(jobs)
      ensures id.Some? ==>
        (Contents(), Changed(true)) == Execute(old(Contents()), RecordFailure(id.value, FailedJob(repo, kind), now))
    {
      if repo !in repos { return None; }
      var newId := NextJobId();
      jobs := jobs[newId := FailedJob(repo, kind).(finishedAt := Some(now))];
      return Some(newId);
    }

    /** `record_event` */
    method Note(e: Event) returns (ok: bool)
      modifies this`events
      ensures (Contents(), if ok then Changed(true) else ConstraintFailed) == Execute(old(Contents()), RecordEvent(e))
    {
      ok := e.repo.Some? ==> e.repo.value in repos;
      if ok { events := events + [e]; }
    }

    /** `restart_job`: a clone in the queue, linked to the job it was made from, which stays as it is. */
    method Restart(id: JobId) returns (r: Option<(JobId, string)>)
      requires RepoThere(Contents(), if id in jobs then jobs[id].repo else None)
      modifies this`jobs
      ensures r.None? <==> id !in old(jobs)
      ensures r.None? ==> jobs == old(jobs)
      ensures r.Some? ==> r.value.0 !in old(jobs) && r.value.1 == SpecOf(old(jobs)[id])
      ensures r.Some? ==> jobs == old(jobs)[r.value.0 := CloneOf(old(jobs)[id], id)]
    {
      if id !in jobs { return None; }
      var j := jobs[id];
      var spec := if j.spec.Some? then j.spec.value else "";
      var newId := NextJobId();
      jobs := jobs[newId := Job(j.repo, j.kind, Some(spec), j.session, Queued, Some(id), None)];
      return Some((newId, spec));
    }

    method ClaimForRun(id: JobId) returns (claimed: bool)
      modifies this`jobs
      ensures (Contents(), Changed(claimed)) == Execute(old(Contents()), ClaimRunning(id))
    {
      claimed := id in jobs && jobs[id].state.Queued?;
      if claimed { jobs := jobs[id := jobs[id].(state := Running)]; }
    }

    method Stop(id: JobId, now: int) returns (stopped: bool)
      modifies this`jobs
      ensures (Contents(), Changed(stopped)) == Execute(old(Contents()), StopIfQueued(id, now))
    {
      stopped := id in jobs && jobs[id].state.Queued?;
      if stopped { jobs := jobs[id := jobs[id].(state := Stopped, finishedAt := Some(now))]; }
    }

    method Finish(id: JobId, state: JobState, now: int)
      modifies this`jobs
      ensures Contents() == Execute(old(Contents()), JobFinished(id, state, now)).0
    {
      if id in jobs { jobs := jobs[id := jobs[id].(state := state, finishedAt := Some(now))]; }
    }

    /** `prune_stale_jobs`, returning how many rows went. */
    method PruneJobs(cutoff: int) returns (n: nat)
      modifies this`jobs
      ensures Contents() == Execute(old(Contents()), PruneStaleJobs(cutoff)).0
      ensures n == |StaleJobs(old(jobs), cutoff)|
    {
      var stale := set id | id in jobs && Stale(jobs[id], cutoff);
      assert stale == StaleJobs(jobs, cutoff);
      jobs := jobs - stale;
      n := |stale|;
    }

    /** `prune_stale_events`, returning how many rows went. */
    method PruneEvents(cutoff: int) returns (n: nat)
      modifies this`events
      ensures Contents() == Execute(old(Contents()), PruneStaleEvents(cutoff)).0
      ensures n == |old(events)| - |events|
    {
      var left := Recent(events, cutoff);
      n := |events| - |left|;
      events := left;
    }

    /** `upsert_status` and the two triggers on `repo_status`. */
    method Upsert(repo: RepoId, row: Status, now: int) returns (ok: bool)
      modifies this`status, this`events
      ensures (Contents(), if ok then Changed(true) else ConstraintFailed) ==
        Execute(old(Contents()), UpsertStatus(repo, row, now))
    {
      ok := true;
      if repo in status {
        var was := status[repo];
        status := status[repo := row];
        if row.dirty != was.dirty || row.sync != was.sync {
          var detail := if row.dirty != was.dirty then (if row.dirty then "dirty" else "clean") else row.sync;
          events := events + [Event(now, StatusEvent, Some(repo), Some(detail), None, None)];
        }
        if row.headSha != was.headSha && was.headSha != "" && row.headSha != "" {
          events := events + [Event(now, CommitEvent, Some(repo), None, Some(was.headSha), Some(row.headSha))];
        }
        assert events == old(events) + StatusEvents(repo, was, row, now) + CommitEvents(repo, was, row, now);
      } else if repo !in repos {
        ok := false;
      } else {
        status := status[repo := row];
      }
    }

    /** Everything keyed by one repo: its history is detached, its state deleted. */
    method PruneOne(id: RepoId)
      modifies this
      ensures Contents() == Execute(old(Contents()), PruneMissing({id})).0
    {
      jobs := DetachJobs(jobs, {id});
      events := DetachEvents(events, {id});
      claims := claims - {id};
      status := status - {id};
      repos := repos - {id};
    }

    /** `prune_missing`, from the ids whose git-dir is gone: one repo after the other, in one transaction. */
    method Prune(missing: seq<RepoId>)
      modifies this
      ensures Contents() == Execute(old(Contents()), PruneMissing(AsSet(missing))).0
    {
      hide Execute;
      NothingGone(Contents());
      assert AsSet(missing[..0]) == {};
      for i := 0 to |missing|
        invariant Contents() == Execute(old(Contents()), PruneMissing(AsSet(missing[..i]))).0
      {
        GoneNext(old(Contents()), AsSet(missing[..i]), missing[i]);
        assert AsSet(missing[..i + 1]) == AsSet(missing[..i]) + {missing[i]};
        PruneOne(missing[i]);
      }
      assert missing[..|missing|] == missing;
    }
  }

  function AsSet(ids: seq<RepoId>): set<RepoId> { set id | id in ids }

  lemma NothingGone(t: Tables)
    ensures Execute(t, PruneMissing({})).0 == t
  {
    assert DetachEvents(t.events, {}) == t.events;
    assert DetachJobs(t.jobs, {}) == t.jobs;
    assert t.claims - {} == t.claims && t.status - {} == t.status && t.repos - {} == t.repos;
  }

  lemma GoneNext(t: Tables, gone: set<RepoId>, id: RepoId)
    ensures Execute(Execute(t, PruneMissing(gone)).0, PruneMissing({id})).0 == Execute(t, PruneMissing(gone + {id})).0
  {
    assert DetachEvents(DetachEvents(t.events, gone), {id}) == DetachEvents(t.events, gone + {id});
    assert DetachJobs(DetachJobs(t.jobs, gone), {id}) == DetachJobs(t.jobs, gone + {id});
    assert t.claims - gone - {id} == t.claims - (gone + {id});
    assert t.status - gone - {id} == t.status - (gone + {id});
    assert t.repos - gone - {id} == t.repos - (gone + {id});
  }
}

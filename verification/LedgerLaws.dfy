/**
 What the ledger's statements do to each other: who may take a claim away, what a job goes through
 in its life, what each statement leaves alone, and one run from an empty ledger written out.
 */
module LedgerLaws {
  import opened Ledger
  import opened LedgerRuns
  import opened Optional

  /** The tables after a statement, and what it answers. */
  function Now(t: Tables, s: Statement): Tables { Execute(t, s).0 }

  function Says(t: Tables, s: Statement): Answer { Execute(t, s).1 }

  /**
   A claim belongs to the session that made it or to the one it was handed to: that session is the one
   named, it alone can give the claim up, no other can be made beside it, and anyone can force it; once
   given up, all is as it was before.
   */
  lemma ClaimBelongs(t: Tables, repo: RepoId, a: string, b: string)
    requires repo in t.repos && repo !in t.claims && a != b
    ensures var u := Now(t, InsertClaim(repo, a));
      && Says(t, InsertClaim(repo, a)) == Changed(true) && Says(u, LookClaim(repo)) == Session(Some(a))
      && Says(u, InsertClaim(repo, b)) == ConstraintFailed && Now(u, InsertClaim(repo, b)) == u
      && Says(u, Unclaim(repo, b)) == Changed(false) && Now(u, Unclaim(repo, b)) == u
      && Says(u, Unclaim(repo, a)) == Changed(true) && Now(u, Unclaim(repo, a)) == t
      && Says(u, UnclaimForce(repo)) == Changed(true) && Now(u, UnclaimForce(repo)) == t
    ensures var v := Now(Now(t, InsertClaim(repo, a)), TransferClaim(repo, b));
      && Says(Now(t, InsertClaim(repo, a)), TransferClaim(repo, b)) == Changed(true)
      && v == Now(t, InsertClaim(repo, b)) && Says(v, LookClaim(repo)) == Session(Some(b))
      && Says(v, Unclaim(repo, a)) == Changed(false) && Now(v, Unclaim(repo, b)) == t
    ensures Says(t, LookClaim(repo)) == Session(None)
    ensures Says(t, TransferClaim(repo, b)) == Changed(false) && Now(t, TransferClaim(repo, b)) == t
  {
    assert t.claims[repo := a] - {repo} == t.claims && t.claims[repo := b] - {repo} == t.claims;
    assert t.claims[repo := a][repo := b] == t.claims[repo := b];
  }

  /**
   A job in its life: it is queued whatever it says of itself; one of a run and a stop gets it and the
   other then does not; it ends in the state and at the time it is given; and the sweep takes it only
   then, and only past that time.
   */
  lemma JobLives(t: Tables, id: JobId, job: Job, end: JobState, now: int, cutoff: int)
    requires id !in t.jobs && RepoThere(t, job.repo) && Terminal(end)
    ensures var q := Now(t, InsertJob(id, job));
      && Says(t, InsertJob(id, job)) == Changed(true) && id in q.jobs
      && q.jobs[id] == Job(job.repo, job.kind, job.spec, job.session, Queued, job.parent, None)
      && Says(q, InsertJob(id, job)) == ConstraintFailed
      && id in Now(q, PruneStaleJobs(cutoff)).jobs
    ensures var r := Now(Now(t, InsertJob(id, job)), ClaimRunning(id));
      && id in r.jobs && r.jobs[id] == Job(job.repo, job.kind, job.spec, job.session, Running, job.parent, None)
      && Says(r, ClaimRunning(id)) == Says(r, StopIfQueued(id, now)) == Changed(false)
      && id in Now(r, PruneStaleJobs(cutoff)).jobs
    ensures var s := Now(Now(t, InsertJob(id, job)), StopIfQueued(id, now));
      && id in s.jobs && s.jobs[id] == Job(job.repo, job.kind, job.spec, job.session, Stopped, job.parent, Some(now))
      && Says(s, ClaimRunning(id)) == Says(s, StopIfQueued(id, now)) == Changed(false)
    ensures var f := Now(Now(Now(t, InsertJob(id, job)), ClaimRunning(id)), JobFinished(id, end, now));
      && id in f.jobs && f.jobs[id] == Job(job.repo, job.kind, job.spec, job.session, end, job.parent, Some(now))
      && (id in Now(f, PruneStaleJobs(cutoff)).jobs <==> now >= cutoff)
  {
    hide Execute;
    var j := Job(job.repo, job.kind, job.spec, job.session, Queued, job.parent, None);
    JobQueued(t, id, job);
    var q := Now(t, InsertJob(id, job));
    JobTaken(q, id, now);
    var r := Now(q, ClaimRunning(id));
    JobTaken(r, id, now);
    JobTaken(Now(q, StopIfQueued(id, now)), id, now);
    JobEnds(r, id, end, now);
    JobSwept(q, id, cutoff);
    JobSwept(r, id, cutoff);
    JobSwept(Now(r, JobFinished(id, end, now)), id, cutoff);
  }

  lemma JobQueued(t: Tables, id: JobId, job: Job)
    requires id !in t.jobs && RepoThere(t, job.repo)
    ensures var q := Now(t, InsertJob(id, job));
      && Says(t, InsertJob(id, job)) == Changed(true) && id in q.jobs
      && q.jobs[id] == Job(job.repo, job.kind, job.spec, job.session, Queued, job.parent, None)
      && Says(q, InsertJob(id, job)) == ConstraintFailed
  {
  }

  lemma JobTaken(t: Tables, id: JobId, now: int)
    requires id in t.jobs
    ensures var j := t.jobs[id];
      && Says(t, ClaimRunning(id)) == Says(t, StopIfQueued(id, now)) == Changed(j.state.Queued?)
      && (j.state.Queued? ==>
            && id in Now(t, ClaimRunning(id)).jobs && id in Now(t, StopIfQueued(id, now)).jobs
            && Now(t, ClaimRunning(id)).jobs[id] ==
                 Job(j.repo, j.kind, j.spec, j.session, Running, j.parent, j.finishedAt)
            && Now(t, StopIfQueued(id, now)).jobs[id] ==
                 Job(j.repo, j.kind, j.spec, j.session, Stopped, j.parent, Some(now)))
  {
  }

  lemma JobEnds(t: Tables, id: JobId, end: JobState, now: int)
    requires id in t.jobs
    ensures var j, f := t.jobs[id], Now(t, JobFinished(id, end, now));
      id in f.jobs && f.jobs[id] == Job(j.repo, j.kind, j.spec, j.session, end, j.parent, Some(now))
  {
  }

  lemma JobSwept(t: Tables, id: JobId, cutoff: int)
    requires id in t.jobs
    ensures id !in Now(t, PruneStaleJobs(cutoff)).jobs <==>
      && (t.jobs[id].state.JobDone? || t.jobs[id].state.Failed? || t.jobs[id].state.Stopped?)
      && t.jobs[id].finishedAt.Some? && t.jobs[id].finishedAt.value < cutoff
  {
  }

  /** The statements on claims. */
  predicate OfClaims(s: Statement) {
    s.LookClaim? || s.InsertClaim? || s.Unclaim? || s.UnclaimForce? || s.TransferClaim?
  }

  /** The repo a statement on claims or on status is about. */
  function Subject(s: Statement): RepoId
    requires OfClaims(s) || s.UpsertStatus?
  {
    match s
    case LookClaim(r) => r
    case InsertClaim(r, _) => r
    case Unclaim(r, _) => r
    case UnclaimForce(r) => r
    case TransferClaim(r, _) => r
    case UpsertStatus(r, _, _) => r
  }

  /** The job a statement is about, if it is about one. */
  predicate About(s: Statement, id: JobId) {
    match s
    case InsertJob(i, _) => i == id
    case RecordFailure(i, _, _) => i == id
    case JobRunning(i) => i == id
    case ClaimRunning(i) => i == id
    case StopIfQueued(i, _) => i == id
    case JobFinished(i, _, _) => i == id
    case _ => false
  }

  /** What a statement is not about it leaves alone, and one that is refused leaves everything. */
  lemma LeavesAlone(t: Tables, s: Statement, repo: RepoId, id: JobId)
    ensures var u := Now(t, s);
      && (Says(t, s) == ConstraintFailed ==> u == t)
      && (Says(t, s) == Changed(false) && !s.PruneMissing? && !s.PruneStaleJobs? && !s.PruneStaleEvents? ==> u == t)
      && (!s.AddRepo? && !s.RemoveRepo? && !s.PruneMissing? ==> u.repos == t.repos)
      && (!OfClaims(s) && !s.PruneMissing? ==> u.claims == t.claims)
      && (!OfJobs(s) && !s.PruneMissing? ==> u.jobs == t.jobs)
      && (!s.UpsertStatus? && !s.PruneMissing? ==> u.status == t.status)
      && (!s.UpsertStatus? && !s.RecordEvent? && !s.PruneStaleEvents? && !s.PruneMissing? ==> u.events == t.events)
      && (OfClaims(s) && repo != Subject(s) ==> SameAt(u.claims, t.claims, repo))
      && (s.UpsertStatus? && repo != Subject(s) ==> SameAt(u.status, t.status, repo))
      && (OfJobs(s) && !s.PruneStaleJobs? && !About(s, id) ==> SameAt(u.jobs, t.jobs, id))
  {
    hide StatusEvents, CommitEvents, DetachJobs, DetachEvents, Recent, StaleJobs, Unnamed, SameAt;
    LeavesRows(t, s, repo, id);
    if s.AddRepo? && s.repo in t.repos { assert t.repos + {s.repo} == t.repos; }
  }

  /** Two tables have the same row under a key, or both none. */
  predicate SameAt<T(==)>(a: map<nat, T>, b: map<nat, T>, k: nat) {
    (k in a <==> k in b) && (k in a ==> a[k] == b[k])
  }

  lemma LeavesRows(t: Tables, s: Statement, repo: RepoId, id: JobId)
    ensures OfClaims(s) && repo != Subject(s) ==> SameAt(Now(t, s).claims, t.claims, repo)
    ensures s.UpsertStatus? && repo != Subject(s) ==> SameAt(Now(t, s).status, t.status, repo)
    ensures OfJobs(s) && !s.PruneStaleJobs? && !About(s, id) ==> SameAt(Now(t, s).jobs, t.jobs, id)
  {
    hide StatusEvents, CommitEvents, DetachJobs, DetachEvents, Recent, StaleJobs, Unnamed;
  }

  /** A clean row and a dirty one, at two commits. */
  const FIRST := Status(false, false, "up-to-date", "main", "c1")
  const SECOND := Status(true, false, "ahead", "main", "c2")
  const THIRD := Status(true, false, "behind", "main", "c2")

  /** Two repos, three updates of one; then a sweep of what is older than 6 and a prune of the other repo. */
  function Run(): seq<Statement> {
    [AddRepo(1), AddRepo(2), InsertClaim(1, "s"), UpsertStatus(1, FIRST, 4), UpsertStatus(1, SECOND, 5),
     UpsertStatus(1, THIRD, 6), RecordEvent(Event(7, Noted("n"), Some(2), None, None, None)), PruneStaleEvents(6),
     PruneMissing({2})]
  }

  /** The first update makes the row and no event; the second one event for the flag and one for the commit; the third
   one for the sync text; the sweep takes those of the second, and the prune the name of the repo that went. */
  lemma RunLeaves()
    ensures After(EMPTY, Run()[..6]) == Tables({1, 2}, map[1 := "s"], map[], map[1 := THIRD],
      [Event(5, StatusEvent, Some(1), Some("dirty"), None, None),
        Event(5, CommitEvent, Some(1), None, Some("c1"), Some("c2")),
       Event(6, StatusEvent, Some(1), Some("behind"), None, None)])
    ensures After(EMPTY, Run()) == Tables({1}, map[1 := "s"], map[], map[1 := THIRD],
      [Event(6, StatusEvent, Some(1), Some("behind"), None, None), Event(7, Noted("n"), None, None, None, None)])
  {
    hide After, Execute;
    StepsOne();
    StepsTwo();
  }

  lemma AfterNext(t: Tables, ss: seq<Statement>, n: nat)
    requires n < |ss|
    ensures After(t, ss[..n + 1]) == Execute(After(t, ss[..n]), ss[n]).0 && After(t, ss[..0]) == t
  {
    hide Execute;
    assert ss[..n + 1][..n] == ss[..n];
  }

  lemma StepsOne()
    ensures After(EMPTY, Run()[..6]) == Tables({1, 2}, map[1 := "s"], map[], map[1 := THIRD],
      [Event(5, StatusEvent, Some(1), Some("dirty"), None, None),
        Event(5, CommitEvent, Some(1), None, Some("c1"), Some("c2")),
       Event(6, StatusEvent, Some(1), Some("behind"), None, None)])
  {
    hide After;
    AfterNext(EMPTY, Run(), 0);
    AfterNext(EMPTY, Run(), 1);
    AfterNext(EMPTY, Run(), 2);
    AfterNext(EMPTY, Run(), 3);
    AfterNext(EMPTY, Run(), 4);
    AfterNext(EMPTY, Run(), 5);
    RowsDiffer();
  }

  lemma RowsDiffer()
    ensures FIRST.sync != SECOND.sync && SECOND.sync != THIRD.sync && FIRST.headSha != SECOND.headSha
  {
    assert "up-to-date"[0] == 'u' && "ahead"[0] == 'a' && "behind"[0] == 'b' && "c1"[1] == '1' && "c2"[1] == '2';
  }

  lemma StepsTwo()
    requires After(EMPTY, Run()[..6]) == Tables({1, 2}, map[1 := "s"], map[], map[1 := THIRD],
      [Event(5, StatusEvent, Some(1), Some("dirty"), None, None),
        Event(5, CommitEvent, Some(1), None, Some("c1"), Some("c2")),
       Event(6, StatusEvent, Some(1), Some("behind"), None, None)])
    ensures After(EMPTY, Run()) == Tables({1}, map[1 := "s"], map[], map[1 := THIRD],
      [Event(6, StatusEvent, Some(1), Some("behind"), None, None), Event(7, Noted("n"), None, None, None, None)])
  {
    hide After, Recent;
    var a, b := Event(5, StatusEvent, Some(1), Some("dirty"), None, None),
      Event(5, CommitEvent, Some(1), None, Some("c1"), Some("c2"));
    var c, d := Event(6, StatusEvent, Some(1), Some("behind"), None, None),
      Event(7, Noted("n"), Some(2), None, None, None);
    AfterNext(EMPTY, Run(), 6);
    AfterNext(EMPTY, Run(), 7);
    AfterNext(EMPTY, Run(), 8);
    FourSwept(a, b, c, d, 6);
    assert [a, b, c] + [d] == [a, b, c, d];
    assert Run()[..9] == Run();
  }

  lemma FourSwept(a: Event, b: Event, c: Event, d: Event, cutoff: int)
    requires a.ts < cutoff && b.ts < cutoff && c.ts >= cutoff && d.ts >= cutoff
    ensures Recent([a, b, c, d], cutoff) == [c, d]
  {
    hide Recent;
    var none: seq<Event> := [];
    RecentNothing(cutoff);
    assert none + [a] == [a] && [a] + [b] == [a, b] && [a, b] + [c] == [a, b, c] && [a, b, c] + [d] == [a, b, c, d];
    RecentOn(none, a, cutoff, none);
    RecentOn([a], b, cutoff, none);
    RecentOn([a, b], c, cutoff, none);
    assert none + [c] == [c] && [c] + [d] == [c, d];
    RecentOn([a, b, c], d, cutoff, [c]);
  }

  lemma RecentOn(es: seq<Event>, e: Event, cutoff: int, left: seq<Event>)
    requires Recent(es, cutoff) == left
    ensures Recent(es + [e], cutoff) == if e.ts >= cutoff then left + [e] else left
  {
    hide Recent;
    RecentSnoc(es, e, cutoff);
    assert left + [] == left;
  }

  lemma RecentNothing(cutoff: int)
    ensures Recent([], cutoff) == []
  {
  }

  /**
   A restart queues a clone of all a job was made with, an empty spec for none, that says where it came
   from; a failure is recorded as failed at its time; a job set running runs, whatever it was; and a repo
   is removed exactly if it is there and no claim, status, job or event names it.
   */
  lemma RowsMade(t: Tables, id: JobId, job: Job, now: int, repo: RepoId, kind: string)
    ensures CloneOf(job, id) ==
      Job(job.repo, job.kind, Some(if job.spec.Some? then job.spec.value else ""), job.session, Queued, Some(id), None)
    ensures FailedJob(repo, kind) == Job(Some(repo), kind, None, None, Failed, None, None)
    ensures id !in t.jobs && RepoThere(t, job.repo) ==>
      && id in Now(t, RecordFailure(id, job, now)).jobs
      && Now(t, RecordFailure(id, job, now)).jobs[id] ==
           Job(job.repo, job.kind, job.spec, job.session, Failed, job.parent, Some(now))
    ensures id !in t.jobs ==>
      && Says(t, JobRunning(id)) == Says(t, JobFinished(id, Stopped, now)) == Changed(false)
      && Says(t, ClaimRunning(id)) == Says(t, StopIfQueued(id, now)) == Changed(false)
    ensures id in t.jobs ==>
      Says(t, JobRunning(id)) == Says(t, JobFinished(id, Stopped, now)) == Changed(true)
    ensures id in t.jobs ==>
      id in Now(t, JobRunning(id)).jobs && Now(t, JobRunning(id)).jobs[id] == t.jobs[id].(state := Running)
    ensures Says(t, RemoveRepo(repo)) == Changed(true) <==>
      && repo in t.repos && repo !in t.claims && repo !in t.status
      && (forall k :: k in t.jobs ==> t.jobs[k].repo != Some(repo))
      && (forall k :: 0 <= k < |t.events| ==> t.events[k].repo != Some(repo))
    ensures repo !in Now(t, RemoveRepo(repo)).repos || Says(t, RemoveRepo(repo)) == ConstraintFailed
    ensures repo in Now(t, AddRepo(repo)).repos
  {
  }
}

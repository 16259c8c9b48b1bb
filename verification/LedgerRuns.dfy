/**
 What holds over every interleaving of the ledger's statements: who holds a claim, who gets a
 job, what the event feed replays, and that no row outlives the repo it names.
 */
module LedgerRuns {
  import opened Ledger
  import opened Optional

  // ---- callers of `claim` -------------------------------------------------------------------

  /** Where a call of `claim` stands: before its check, past it, past an insertion that failed, or answered. */
  datatype Phase = Asking | FoundFree | LostRace | Answered(result: ClaimResult)

  datatype Caller = Caller(repo: RepoId, session: string, phase: Phase)

  datatype World = World(db: Tables, callers: seq<Caller>)

  /** A caller's next statement, or a statement of anyone else's. */
  datatype Move = Turn(caller: nat) | Sql(statement: Statement)

  function Verdict(held: string, session: string): ClaimResult {
    if held == session then AlreadyMine else HeldBy(held)
  }

  /** One statement of `claim`. */
  function TakeTurn(t: Tables, c: Caller): (Tables, Caller) {
    match c.phase
    case Asking =>
      var (t2, a) := Execute(t, LookClaim(c.repo));
      (t2, c.(phase := if a.held.Some? then Answered(Verdict(a.held.value, c.session)) else FoundFree))
    case FoundFree =>
      var (t2, a) := Execute(t, InsertClaim(c.repo, c.session));
      (t2, c.(phase := if a.ConstraintFailed? then LostRace else Answered(Acquired)))
    case LostRace =>
      var (t2, a) := Execute(t, LookClaim(c.repo));
      (t2, c.(phase := Answered(if a.held.Some? then Verdict(a.held.value, c.session) else QueryError)))
    case Answered(_) => (t, c)
  }

  function Next(w: World, m: Move): World {
    match m
    case Sql(s) => w.(db := Execute(w.db, s).0)
    case Turn(k) =>
      if k >= |w.callers| then w
      else
        var (t, c) := TakeTurn(w.db, w.callers[k]);
        World(t, w.callers[k := c])
  }

  predicate IsRun(ws: seq<World>, ms: seq<Move>) {
    |ws| == |ms| + 1 && forall i :: 0 <= i < |ms| ==> ws[i + 1] == Next(ws[i], ms[i])
  }

  /** In this move some call of `claim` for `repo` comes to answer `r`. */
  predicate Answers(w: World, m: Move, repo: RepoId, session: string, r: ClaimResult) {
    && m.Turn? && m.caller < |w.callers| && w.callers[m.caller].repo == repo && w.callers[m.caller].session == session
    && !w.callers[m.caller].phase.Answered? && Next(w, m).callers[m.caller].phase == Answered(r)
  }

  /** What an answer says of the claim row: `Acquired` that this very move made it, the others whose it was. */
  lemma AnswerIsTrue(w: World, m: Move, repo: RepoId, session: string, r: ClaimResult)
    requires Answers(w, m, repo, session, r)
    ensures r.Acquired? ==>
      repo !in w.db.claims && repo in w.db.repos && Next(w, m).db.claims == w.db.claims[repo := session]
    ensures r.AlreadyMine? ==> repo in w.db.claims && w.db.claims[repo] == session && Next(w, m).db == w.db
    ensures r.HeldBy? ==> repo in w.db.claims && w.db.claims[repo] == r.session != session && Next(w, m).db == w.db
    ensures r.QueryError? ==> repo !in w.db.claims && Next(w, m).db == w.db
  {
  }

  /** A move that takes the claim row of `repo` away. */
  predicate DeletesClaim(w: World, m: Move, repo: RepoId) {
    && repo in w.db.claims && m.Sql?
    && match m.statement
       case Unclaim(r, session) => r == repo && w.db.claims[repo] == session
       case UnclaimForce(r) => r == repo
       case PruneMissing(gone) => repo in gone
       case _ => false
  }

  lemma OnlyDeletesDelete(w: World, m: Move, repo: RepoId)
    requires repo in w.db.claims && repo !in Next(w, m).db.claims
    ensures DeletesClaim(w, m, repo)
  {
  }

  /** If a claim row is there at one point and not at a later one, a move between them deleted it. */
  lemma {:induction false} DeletedBetween(ws: seq<World>, ms: seq<Move>, repo: RepoId, i: nat, j: nat) returns (n: nat)
    requires IsRun(ws, ms) && i < j < |ws| && repo in ws[i].db.claims && repo !in ws[j].db.claims
    ensures i <= n < j && n < |ms| && DeletesClaim(ws[n], ms[n], repo)
    decreases j - i
  {
    hide Next;
    if repo in ws[j - 1].db.claims {
      n := j - 1;
      OnlyDeletesDelete(ws[n], ms[n], repo);
    } else {
      n := DeletedBetween(ws, ms, repo, i, j - 1);
    }
  }

  /**
   Two answers `Acquired` for one repo have a deletion of its claim row between them, however the calls interleave.
   */
  lemma AcquiredApart(ws: seq<World>, ms: seq<Move>, repo: RepoId, i: nat, j: nat, a: string, b: string)
    requires IsRun(ws, ms) && i < j < |ms|
    requires Answers(ws[i], ms[i], repo, a, Acquired) && Answers(ws[j], ms[j], repo, b, Acquired)
    ensures exists n :: i < n < j && DeletesClaim(ws[n], ms[n], repo)
  {
    hide Next, Answers, DeletesClaim;
    AnswerIsTrue(ws[i], ms[i], repo, a, Acquired);
    AnswerIsTrue(ws[j], ms[j], repo, b, Acquired);
    var n := DeletedBetween(ws, ms, repo, i + 1, j);
  }

  // ---- jobs ---------------------------------------------------------------------------------

  /** In this move a worker gets the job, or a stop that came first does. */
  predicate Takes(w: World, m: Move, id: JobId) {
    && m.Sql? && (m.statement.ClaimRunning? || m.statement.StopIfQueued?) && m.statement.id == id
    && Execute(w.db, m.statement).1 == Changed(true)
  }

  /** A move that puts a job back in the queue; the callers of `job_finished` pass done, failed and stopped only. */
  predicate Requeues(m: Move, id: JobId) {
    m.Sql? && m.statement.JobFinished? && m.statement.id == id && m.statement.state.Queued?
  }

  /** `job_finished` gets one of the states its callers pass. */
  predicate FinishesAsCalled(m: Move) { m.Sql? && m.statement.JobFinished? ==> Terminal(m.statement.state) }

  predicate Taken(t: Tables, id: JobId) { id in t.jobs && !t.jobs[id].state.Queued? }

  lemma TakesQueued(w: World, m: Move, id: JobId)
    requires Takes(w, m, id)
    ensures id in w.db.jobs && w.db.jobs[id].state.Queued? && Taken(Next(w, m).db, id)
  {
  }

  lemma StaysTaken(w: World, m: Move, id: JobId)
    requires Taken(w.db, id) && !Requeues(m, id)
    ensures Taken(Next(w, m).db, id) || id !in Next(w, m).db.jobs
  {
    TurnKeepsJobs(w, m);
  }

  lemma TurnKeepsJobs(w: World, m: Move)
    ensures m.Turn? ==> Next(w, m).db.jobs == w.db.jobs
  {
  }

  /** The retention sweep takes the row of job `id`, which is in a terminal state. */
  predicate Sweeps(w: World, m: Move, id: JobId) {
    id in w.db.jobs && m.Sql? && m.statement.PruneStaleJobs? && Stale(w.db.jobs[id], m.statement.cutoff)
  }

  lemma OnlyFinishedGo(w: World, m: Move, id: JobId)
    requires id in w.db.jobs && id !in Next(w, m).db.jobs
    ensures Sweeps(w, m, id)
  {
    hide Next, Sweeps;
    JobOn(w, m, id);
  }

  lemma {:induction false} QueuedAgain(ws: seq<World>, ms: seq<Move>, id: JobId, i: nat, j: nat) returns (n: nat)
    requires IsRun(ws, ms) && i < j < |ws| && Taken(ws[i].db, id) && !Taken(ws[j].db, id)
    ensures i <= n < j && n < |ms| && (Sweeps(ws[n], ms[n], id) || Requeues(ms[n], id))
    decreases j - i
  {
    hide Next, Taken, Requeues, Sweeps;
    if Taken(ws[j - 1].db, id) {
      n := j - 1;
      TakenIsThere(ws[n].db, id);
      if !Requeues(ms[n], id) {
        StaysTaken(ws[n], ms[n], id);
        OnlyFinishedGo(ws[n], ms[n], id);
      }
    } else {
      n := QueuedAgain(ws, ms, id, i, j - 1);
    }
  }

  lemma TakenIsThere(t: Tables, id: JobId)
    ensures Taken(t, id) ==> id in t.jobs
    ensures id in t.jobs && t.jobs[id].state.Queued? ==> !Taken(t, id)
  {
  }

  /**
   Between two successes of `claim_running` or `stop_if_queued` the row was swept, or the job was put back in the
   queue.
   */
  lemma TakenApart(ws: seq<World>, ms: seq<Move>, id: JobId, i: nat, j: nat)
    requires IsRun(ws, ms) && i < j < |ms| && Takes(ws[i], ms[i], id) && Takes(ws[j], ms[j], id)
    ensures exists n :: i < n < j && (Sweeps(ws[n], ms[n], id) || Requeues(ms[n], id))
  {
    hide Next, Takes, Taken, Requeues, Sweeps;
    TakesQueued(ws[i], ms[i], id);
    TakesQueued(ws[j], ms[j], id);
    TakenIsThere(ws[j].db, id);
    if j == i + 1 {
      assert false;
    }
    var n := QueuedAgain(ws, ms, id, i + 1, j);
    assert Sweeps(ws[n], ms[n], id) || Requeues(ms[n], id);
  }

  /**
   For the life of a job row at most one of `claim_running` and `stop_if_queued` is ever true: in a run
   in which `job_finished` is called as its callers do, the sweep took the row between two of them.
   */
  lemma TakenOnce(ws: seq<World>, ms: seq<Move>, id: JobId, i: nat, j: nat)
    requires IsRun(ws, ms) && i < j < |ms| && Takes(ws[i], ms[i], id) && Takes(ws[j], ms[j], id)
    requires forall n :: i < n < j ==> FinishesAsCalled(ms[n])
    ensures exists n :: i < n < j && Sweeps(ws[n], ms[n], id)
  {
    hide Next, Takes, Sweeps;
    TakenApart(ws, ms, id, i, j);
    var n :| i < n < j && (Sweeps(ws[n], ms[n], id) || Requeues(ms[n], id));
    assert FinishesAsCalled(ms[n]);
  }

  // ---- history --------------------------------------------------------------------------------

  /** What a job was made with; a prune may have taken the repo. */
  predicate SameJob(a: Job, b: Job) {
    && b.kind == a.kind && b.spec == a.spec && b.session == a.session && b.parent == a.parent
    && (b.repo == a.repo || b.repo.None?)
  }

  /** A job row keeps what it was made with until the sweep takes it. */
  lemma {:induction false} JobKept(ws: seq<World>, ms: seq<Move>, id: JobId, i: nat, j: nat)
    requires IsRun(ws, ms) && i <= j < |ws| && id in ws[i].db.jobs
    ensures (id in ws[j].db.jobs && SameJob(ws[i].db.jobs[id], ws[j].db.jobs[id]))
      || exists n :: i <= n < j && Sweeps(ws[n], ms[n], id)
    decreases j - i
  {
    hide Next, Sweeps;
    if i < j {
      JobKept(ws, ms, id, i, j - 1);
      if !(exists n :: i <= n < j - 1 && Sweeps(ws[n], ms[n], id)) {
        JobOn(ws[j - 1], ms[j - 1], id);
      }
    }
  }

  lemma JobOn(w: World, m: Move, id: JobId)
    requires id in w.db.jobs
    ensures (id in Next(w, m).db.jobs && SameJob(w.db.jobs[id], Next(w, m).db.jobs[id])) || Sweeps(w, m, id)
  {
    hide Execute, TakeTurn;
    TurnKeepsJobs(w, m);
    match m {
      case Turn(_) =>
      case Sql(s) => if OfJobs(s) { JobStatement(w.db, s, id); } else { OtherStatement(w.db, s, id); }
    }
  }

  /** The statement is one of those on the table of jobs. */
  predicate OfJobs(s: Statement) {
    || s.InsertJob? || s.RecordFailure? || s.JobRunning? || s.ClaimRunning?
    || s.StopIfQueued? || s.JobFinished? || s.PruneStaleJobs?
  }

  lemma JobStatement(t: Tables, s: Statement, id: JobId)
    requires id in t.jobs && OfJobs(s)
    ensures var u := Execute(t, s).0;
      (id in u.jobs && SameJob(t.jobs[id], u.jobs[id])) || (s.PruneStaleJobs? && Stale(t.jobs[id], s.cutoff))
  {
    hide StatusEvents, CommitEvents, DetachEvents, DetachJobs;
  }

  lemma OtherStatement(t: Tables, s: Statement, id: JobId)
    requires id in t.jobs && !OfJobs(s)
    ensures var u := Execute(t, s).0; id in u.jobs && SameJob(t.jobs[id], u.jobs[id])
  {
    hide StatusEvents, CommitEvents, DetachEvents;
  }

  /** The history `es` is still the beginning of `fs`; a prune may have taken repos out of it. */
  ghost predicate Extends(es: seq<Event>, fs: seq<Event>) {
    |es| <= |fs| && forall k :: 0 <= k < |es| ==> fs[k] == es[k] || fs[k] == es[k].(repo := None)
  }

  /** The latest time up to which the moves from `i` to `j` have swept events away. */
  function Horizon(ms: seq<Move>, i: nat, j: nat): Option<int>
    requires i <= j <= |ms|
  {
    if i == j then None else Past(Horizon(ms, i, j - 1), ms[j - 1])
  }

  function Past(h: Option<int>, m: Move): Option<int> {
    if !(m.Sql? && m.statement.PruneStaleEvents?) then h
    else if h.Some? && h.value >= m.statement.cutoff then h
    else Some(m.statement.cutoff)
  }

  function Since(es: seq<Event>, h: Option<int>): seq<Event> { if h.None? then es else Recent(es, h.value) }

  /**
   An event stays until a sweep whose cutoff is past its time takes it: what is left of an earlier history is exactly
   its events from the latest cutoff on, in order, unaltered but for a repo that was pruned; whatever else there is
   stands behind them.
   */
  lemma {:induction false} HistoryKept(ws: seq<World>, ms: seq<Move>, i: nat, j: nat)
    requires IsRun(ws, ms) && i <= j < |ws|
    ensures Extends(Since(ws[i].db.events, Horizon(ms, i, j)), ws[j].db.events)
    decreases j - i
  {
    hide Next, Extends, Recent;
    if i == j {
      ExtendsItself(ws[i].db.events);
    } else {
      HistoryKept(ws, ms, i, j - 1);
      HistoryOn(ws[i].db.events, Horizon(ms, i, j - 1), ws[j - 1], ms[j - 1]);
    }
  }

  lemma HistoryOn(es: seq<Event>, h: Option<int>, w: World, m: Move)
    requires Extends(Since(es, h), w.db.events)
    ensures Extends(Since(es, Past(h, m)), Next(w, m).db.events)
  {
    hide Extends, Recent, Since, TakeTurn;
    if m.Sql? && m.statement.PruneStaleEvents? {
      ExtendsRecent(Since(es, h), w.db.events, m.statement.cutoff);
      SinceRecent(es, h, m);
    } else {
      EventsOn(w, m);
      ExtendsOn(Since(es, h), w.db.events, Next(w, m).db.events);
    }
  }

  lemma SinceRecent(es: seq<Event>, h: Option<int>, m: Move)
    requires m.Sql? && m.statement.PruneStaleEvents?
    ensures Recent(Since(es, h), m.statement.cutoff) == Since(es, Past(h, m))
  {
    hide Recent;
    if h.Some? { RecentTwice(es, h.value, m.statement.cutoff); }
  }

  lemma RecentSnoc(es: seq<Event>, e: Event, c: int)
    ensures Recent(es + [e], c) == Recent(es, c) + if e.ts >= c then [e] else []
  {
    assert (es + [e])[..|es|] == es;
  }

  lemma {:induction false} RecentTwice(es: seq<Event>, c: int, d: int)
    ensures Recent(Recent(es, c), d) == Recent(es, if c >= d then c else d)
  {
    if es != [] {
      var n := |es| - 1;
      RecentTwice(es[..n], c, d);
      RecentSnoc(Recent(es[..n], c), es[n], d);
      assert Recent(es[..n], c) + [] == Recent(es[..n], c);
    }
  }

  /** A sweep leaves of two histories what still begins one with the other. */
  lemma {:induction false} ExtendsRecent(es: seq<Event>, fs: seq<Event>, c: int)
    requires Extends(es, fs)
    ensures Extends(Recent(es, c), Recent(fs, c))
    ensures |es| == |fs| ==> |Recent(es, c)| == |Recent(fs, c)|
    decreases |fs|
  {
    hide Extends;
    ExtendsIs(es, fs);
    if fs == [] {
      ExtendsItself([]);
    } else {
      var m := |fs| - 1;
      if |es| == |fs| {
        ExtendsLast(es, fs);
        ExtendsRecent(es[..m], fs[..m], c);
        var x, y := Recent(es[..m], c), Recent(fs[..m], c);
        if es[m].ts >= c { ExtendsBoth(x, y, es[m], fs[m]); } else { assert x + [] == x && y + [] == y; }
      } else {
        ExtendsFront(es, fs);
        ExtendsRecent(es, fs[..m], c);
        var y := Recent(fs[..m], c);
        if fs[m].ts >= c { ExtendsMore(Recent(es, c), y, fs[m]); } else { assert y + [] == y; }
      }
    }
  }

  lemma ExtendsIs(es: seq<Event>, fs: seq<Event>)
    ensures Extends(es, fs) ==> |es| <= |fs|
    ensures Extends(es, fs) ==> forall k :: 0 <= k < |es| ==> fs[k] == es[k] || fs[k] == es[k].(repo := None)
  {
  }

  lemma ExtendsFront(es: seq<Event>, fs: seq<Event>)
    requires Extends(es, fs) && |es| < |fs|
    ensures Extends(es, fs[..|fs| - 1])
  {
  }

  lemma ExtendsLast(es: seq<Event>, fs: seq<Event>)
    requires Extends(es, fs) && |es| == |fs| > 0
    ensures Extends(es[..|es| - 1], fs[..|fs| - 1])
  {
  }

  lemma ExtendsBoth(es: seq<Event>, fs: seq<Event>, e: Event, f: Event)
    requires Extends(es, fs) && |es| == |fs| && (f == e || f == e.(repo := None))
    ensures Extends(es + [e], fs + [f])
  {
  }

  lemma ExtendsMore(es: seq<Event>, fs: seq<Event>, f: Event)
    requires Extends(es, fs)
    ensures Extends(es, fs + [f])
  {
  }

  lemma ExtendsOn(es: seq<Event>, fs: seq<Event>, gs: seq<Event>)
    requires Extends(es, fs) && Extends(fs, gs)
    ensures Extends(es, gs)
  {
  }

  lemma ExtendsItself(es: seq<Event>)
    ensures Extends(es, es)
  {
  }

  lemma EventsOn(w: World, m: Move)
    requires !(m.Sql? && m.statement.PruneStaleEvents?)
    ensures Extends(w.db.events, Next(w, m).db.events)
  {
    hide Execute, Extends;
    match m {
      case Turn(_) =>
        TurnKeepsEvents(w, m);
        ExtendsItself(w.db.events);
      case Sql(s) => EventsKept(w.db, s);
    }
  }

  lemma TurnKeepsEvents(w: World, m: Move)
    ensures m.Turn? ==> Next(w, m).db.events == w.db.events
  {
  }

  lemma EventsKept(t: Tables, s: Statement)
    requires !s.PruneStaleEvents?
    ensures Extends(t.events, Execute(t, s).0.events)
  {
    hide StatusEvents, CommitEvents, DetachJobs, Recent;
  }

  // ---- references -----------------------------------------------------------------------------

  /** Every row that names a repo names one that is there. */
  ghost predicate Referential(t: Tables) {
    && (forall r :: r in t.claims ==> r in t.repos)
    && (forall r :: r in t.status ==> r in t.repos)
    && (forall id :: id in t.jobs ==> RepoThere(t, t.jobs[id].repo))
    && (forall i :: 0 <= i < |t.events| ==> RepoThere(t, t.events[i].repo))
  }

  lemma StatementKeepsReferences(t: Tables, s: Statement)
    requires Referential(t)
    ensures Referential(Execute(t, s).0)
  {
    hide *;
    match s {
      case UpsertStatus(repo, row, now) => UpsertKeepsReferences(t, repo, row, now);
      case PruneMissing(gone) => PruneKeepsReferences(t, gone);
      case PruneStaleEvents(cutoff) => SweepKeepsReferences(t, cutoff);
      case _ => if OfJobs(s) { JobKeepsReferences(t, s); } else { RowKeepsReferences(t, s); }
    }
  }

  lemma JobKeepsReferences(t: Tables, s: Statement)
    requires Referential(t) && OfJobs(s)
    ensures Referential(Execute(t, s).0)
  {
    hide StatusEvents, CommitEvents, DetachJobs, DetachEvents, Recent;
  }

  lemma RowKeepsReferences(t: Tables, s: Statement)
    requires Referential(t) && !s.UpsertStatus? && !s.PruneMissing? && !s.PruneStaleEvents? && !OfJobs(s)
    ensures Referential(Execute(t, s).0)
  {
    hide StatusEvents, CommitEvents, DetachJobs, DetachEvents, Recent;
  }

  lemma {:induction false} RecentIn(es: seq<Event>, c: int, k: nat) returns (m: nat)
    requires k < |Recent(es, c)|
    ensures m < |es| && Recent(es, c)[k] == es[m]
  {
    var n := |es| - 1;
    if k < |Recent(es[..n], c)| { m := RecentIn(es[..n], c, k); } else { m := n; }
  }

  lemma SweepKeepsReferences(t: Tables, cutoff: int)
    requires Referential(t)
    ensures Referential(Execute(t, PruneStaleEvents(cutoff)).0)
  {
    hide Recent;
    forall k | 0 <= k < |Recent(t.events, cutoff)| ensures RepoThere(t, Recent(t.events, cutoff)[k].repo) {
      var m := RecentIn(t.events, cutoff, k);
    }
  }

  lemma PruneKeepsReferences(t: Tables, gone: set<RepoId>)
    requires Referential(t)
    ensures Referential(Execute(t, PruneMissing(gone)).0)
  {
    hide StatusEvents, CommitEvents;
  }

  lemma UpsertKeepsReferences(t: Tables, repo: RepoId, row: Status, now: int)
    requires Referential(t)
    ensures Referential(Execute(t, UpsertStatus(repo, row, now)).0)
  {
    hide StatusEvents, CommitEvents, DetachJobs, DetachEvents;
    if repo in t.status { TriggersName(repo, t.status[repo], row, now); }
  }

  lemma TriggersName(repo: RepoId, was: Status, row: Status, now: int)
    ensures forall i :: 0 <= i < |StatusEvents(repo, was, row, now)| ==>
      StatusEvents(repo, was, row, now)[i].repo == Some(repo)
    ensures forall i :: 0 <= i < |CommitEvents(repo, was, row, now)| ==>
      CommitEvents(repo, was, row, now)[i].repo == Some(repo)
  {
  }

  /** References hold at every point of every run that starts with them. */
  lemma {:induction false} ReferencesHold(ws: seq<World>, ms: seq<Move>, i: nat)
    requires IsRun(ws, ms) && i < |ws| && Referential(ws[0].db)
    ensures Referential(ws[i].db)
  {
    hide Referential, Execute;
    if i > 0 {
      ReferencesHold(ws, ms, i - 1);
      TurnIsStatement(ws[i - 1], ms[i - 1]);
      if ws[i].db != ws[i - 1].db {
        var s :| Next(ws[i - 1], ms[i - 1]).db == Execute(ws[i - 1].db, s).0;
        StatementKeepsReferences(ws[i - 1].db, s);
      }
    }
  }

  lemma TurnIsStatement(w: World, m: Move)
    ensures Next(w, m).db == w.db || exists s :: Next(w, m).db == Execute(w.db, s).0
  {
    match m {
      case Sql(s) => assert Next(w, m).db == Execute(w.db, s).0;
      case Turn(k) =>
        if k < |w.callers| && w.callers[k].phase.FoundFree? {
          assert Next(w, m).db == Execute(w.db, InsertClaim(w.callers[k].repo, w.callers[k].session)).0;
        }
    }
  }

  predicate Adds(m: Move, repo: RepoId) { m.Sql? && m.statement.AddRepo? && m.statement.repo == repo }

  /** The move takes the repo out of the index: a prune, or a removal that no row stands against. */
  predicate Drops(w: World, m: Move, repo: RepoId) {
    && m.Sql?
    && match m.statement
       case PruneMissing(gone) => repo in gone
       case RemoveRepo(r) => r == repo && repo in w.db.repos && Unnamed(w.db, repo)
       case _ => false
  }

  lemma AbsentIsUnnamed(t: Tables, repo: RepoId)
    requires Referential(t) && repo !in t.repos
    ensures Unnamed(t, repo)
  {
  }

  lemma {:induction false} StaysAway(ws: seq<World>, ms: seq<Move>, repo: RepoId, i: nat, j: nat)
    requires IsRun(ws, ms) && i < j < |ws| && Drops(ws[i], ms[i], repo)
    requires forall n :: i < n < j ==> !Adds(ms[n], repo)
    ensures repo !in ws[j].db.repos
    decreases j
  {
    hide StatusEvents, CommitEvents, DetachJobs, DetachEvents, Recent, Unnamed, Drops, Next;
    ReposOn(ws[j - 1], ms[j - 1], repo);
    if j - 1 > i { StaysAway(ws, ms, repo, i, j - 1); }
  }

  lemma ReposOn(w: World, m: Move, repo: RepoId)
    ensures Drops(w, m, repo) || (repo !in w.db.repos && !Adds(m, repo)) ==> repo !in Next(w, m).db.repos
    ensures Adds(m, repo) && Unnamed(w.db, repo) ==> Unnamed(Next(w, m).db, repo)
  {
    hide StatusEvents, CommitEvents, DetachJobs, DetachEvents, Recent;
  }

  /**
   Once a repo is pruned or removed no row names it, up to and including the move that next gives its id to a repo,
   which so inherits nothing.
   */
  lemma NothingInherited(ws: seq<World>, ms: seq<Move>, repo: RepoId, i: nat, j: nat)
    requires IsRun(ws, ms) && i < j < |ws| && Drops(ws[i], ms[i], repo) && Referential(ws[0].db)
    requires forall n :: i < n < j - 1 ==> !Adds(ms[n], repo)
    ensures Unnamed(ws[j].db, repo)
  {
    hide Next, Referential, Unnamed, Drops;
    var last := if j - 1 > i && Adds(ms[j - 1], repo) then j - 1 else j;
    StaysAway(ws, ms, repo, i, last);
    ReferencesHold(ws, ms, last);
    AbsentIsUnnamed(ws[last].db, repo);
    if last < j { ReposOn(ws[last], ms[last], repo); }
  }

  // ---- the feed -------------------------------------------------------------------------------

  function After(t: Tables, ss: seq<Statement>): Tables {
    if ss == [] then t else Execute(After(t, ss[..|ss| - 1]), ss[|ss| - 1]).0
  }

  /** The events of one kind a feed holds for a repo. */
  function Feed(es: seq<Event>, repo: RepoId, kind: EventKind): seq<Event> {
    if es == [] then []
    else
      var e := es[|es| - 1];
      Feed(es[..|es| - 1], repo, kind) + if e.repo == Some(repo) && e.kind == kind then [e] else []
  }

  /** Nothing of the repo is recorded. */
  predicate Fresh(t: Tables, repo: RepoId) {
    repo !in t.status && Feed(t.events, repo, CommitEvent) == [] && Feed(t.events, repo, StatusEvent) == []
  }

  /** Following commit events from a commit: where they lead, if each begins where the last one ended. */
  function Follow(from: string, commits: seq<Event>): Option<string> {
    if commits == [] then Some(from)
    else
      var e := commits[|commits| - 1];
      var at := Follow(from, commits[..|commits| - 1]);
      if at.Some? && e.shaBefore == at && e.shaAfter.Some? && e.shaAfter != e.shaBefore then e.shaAfter else None
  }

  /** The dirty flag after the status events, from what it was. */
  function Replay(dirty: bool, events: seq<Event>): bool {
    if events == [] then dirty
    else
      var e := events[|events| - 1];
      if e.detail == Some("dirty") then true
      else if e.detail == Some("clean") then false
      else Replay(dirty, events[..|events| - 1])
  }

  /** The row a repo's status began with. */
  function FirstRow(t: Tables, ss: seq<Statement>, repo: RepoId): Option<Status> {
    if ss == [] then None
    else
      var f := FirstRow(t, ss[..|ss| - 1], repo);
      if f.Some? then f else if repo in After(t, ss).status then Some(After(t, ss).status[repo]) else None
  }

  /** The sync text is not the word for the other dirty flag. */
  predicate Honest(row: Status) { (row.sync == "dirty" ==> row.dirty) && (row.sync == "clean" ==> !row.dirty) }

  /** The words `sync_state` has for how a repo stands to its upstream. */
  const SYNC_WORDS := {"unborn", "up-to-date", "ahead", "behind", "diverged", "unrelated", "no-upstream"}

  /**
   The statement leaves the feed of `repo` whole: it is no sweep of events, does not prune the repo, records no event
   of the triggers' own kinds, and its commit id is not empty.
   */
  predicate Keeps(s: Statement, repo: RepoId) {
    && !s.PruneStaleEvents?
    && (s.PruneMissing? ==> repo !in s.gone)
    && (s.RecordEvent? ==> s.event.kind.Noted?)
    && (s.UpsertStatus? && s.repo == repo ==> s.row.headSha != "")
  }

  /** And its sync text does not contradict its dirty flag. */
  predicate Feeds(s: Statement, repo: RepoId) {
    Keeps(s, repo) && (s.UpsertStatus? && s.repo == repo ==> Honest(s.row))
  }

  /** The sync texts the callers of `upsert_status` pass never do. */
  lemma CallersAreHonest(s: Statement, repo: RepoId)
    requires Keeps(s, repo) && (s.UpsertStatus? ==> s.row.sync in SYNC_WORDS)
    ensures Feeds(s, repo)
  {
    if s.UpsertStatus? {
      assert "dirty"[0] == 'd' && "clean"[0] == 'c';
      assert "diverged"[1] == 'i';
    }
  }

  lemma FeedSnoc(es: seq<Event>, e: Event, repo: RepoId, kind: EventKind)
    ensures Feed(es + [e], repo, kind) ==
      Feed(es, repo, kind) + if e.repo == Some(repo) && e.kind == kind then [e] else []
  {
    assert (es + [e])[..|es|] == es;
  }

  lemma {:induction false} FeedDetached(es: seq<Event>, gone: set<RepoId>, repo: RepoId, kind: EventKind)
    requires repo !in gone
    ensures Feed(DetachEvents(es, gone), repo, kind) == Feed(es, repo, kind)
  {
    if es != [] {
      var n := |es| - 1;
      FeedDetached(es[..n], gone, repo, kind);
      assert DetachEvents(es, gone)[..n] == DetachEvents(es[..n], gone);
    }
  }

  /** The events of one kind that a status update adds. */
  function TriggersOf(kind: EventKind, repo: RepoId, was: Status, row: Status, now: int): seq<Event> {
    match kind
    case StatusEvent => StatusEvents(repo, was, row, now)
    case CommitEvent => CommitEvents(repo, was, row, now)
    case Noted(_) => []
  }

  /** What a status update adds to the feed of `repo`. */
  lemma FeedUpsert(t: Tables, r: RepoId, row: Status, now: int, repo: RepoId, kind: EventKind)
    requires r in t.status
    ensures
      var was := t.status[r];
      var add := TriggersOf(kind, r, was, row, now);
      Feed(Execute(t, UpsertStatus(r, row, now)).0.events, repo, kind) ==
        Feed(t.events, repo, kind) + if r == repo then add else []
  {
    hide Feed;
    var a, b := StatusEvents(r, t.status[r], row, now), CommitEvents(r, t.status[r], row, now);
    FeedFew(t.events, a, repo, kind);
    FeedFew(t.events + a, b, repo, kind);
  }

  lemma FeedFew(es: seq<Event>, more: seq<Event>, repo: RepoId, kind: EventKind)
    requires |more| <= 1
    ensures Feed(es + more, repo, kind) ==
      Feed(es, repo, kind) + if more != [] && more[0].repo == Some(repo) && more[0].kind == kind then more else []
  {
    hide Feed;
    if more == [] {
      assert es + more == es;
    } else {
      assert more == [more[0]];
      FeedSnoc(es, more[0], repo, kind);
    }
  }

  /** Other statements leave the feed of `repo`, and its row, as they are. */
  lemma FeedOther(t: Tables, s: Statement, repo: RepoId, kind: EventKind)
    requires Keeps(s, repo) && !(s.UpsertStatus? && s.repo == repo) && !kind.Noted?
    ensures var u := Execute(t, s).0;
      && Feed(u.events, repo, kind) == Feed(t.events, repo, kind)
      && (repo in u.status <==> repo in t.status) && (repo in t.status ==> u.status[repo] == t.status[repo])
  {
    hide Feed, Recent;
    if s.RecordEvent? { FeedFew(t.events, [s.event], repo, kind); }
    if s.PruneMissing? { FeedDetached(t.events, s.gone, repo, kind); }
    if s.UpsertStatus? && s.repo in t.status { FeedUpsert(t, s.repo, s.row, s.now, repo, kind); }
  }

  lemma FollowOn(from: string, commits: seq<Event>, e: Event)
    requires Follow(from, commits).Some? && e.shaBefore == Follow(from, commits)
    requires e.shaAfter.Some? && e.shaAfter != e.shaBefore
    ensures Follow(from, commits + [e]) == e.shaAfter
  {
    assert (commits + [e])[..|commits|] == commits;
  }

  lemma ReplayOn(dirty: bool, events: seq<Event>, e: Event)
    ensures Replay(dirty, events + [e]) ==
      if e.detail == Some("dirty") then true else if e.detail == Some("clean") then false else Replay(dirty, events)
  {
    assert (events + [e])[..|events|] == events;
  }

  /** The feed of a repo tells its whole story: its commit events form a chain from the first commit recorded to the
   current one, and its status events replay the dirty flag. */
  ghost predicate Tells(t: Tables, repo: RepoId, first: Status) {
    && repo in t.status && t.status[repo].headSha != ""
    && Follow(first.headSha, Feed(t.events, repo, CommitEvent)) == Some(t.status[repo].headSha)
    && Replay(first.dirty, Feed(t.events, repo, StatusEvent)) == t.status[repo].dirty
  }

  /** A status update keeps the story told exactly when it changes the dirty flag, or leaves the sync text as it was, or
   gives one that is not the word for the other flag. */
  lemma UpsertTells(t: Tables, repo: RepoId, row: Status, now: int, first: Status)
    requires Tells(t, repo, first) && row.headSha != ""
    ensures Tells(Execute(t, UpsertStatus(repo, row, now)).0, repo, first) <==>
      row.dirty != t.status[repo].dirty || row.sync == t.status[repo].sync || Honest(row)
  {
    hide Feed, Follow, Replay;
    FeedUpsert(t, repo, row, now, repo, CommitEvent);
    FeedUpsert(t, repo, row, now, repo, StatusEvent);
    var was := t.status[repo];
    var commits, changes := CommitEvents(repo, was, row, now), StatusEvents(repo, was, row, now);
    var c, s := Feed(t.events, repo, CommitEvent), Feed(t.events, repo, StatusEvent);
    if commits != [] { FollowOn(first.headSha, c, commits[0]); } else { assert c + commits == c; }
    if changes != [] { ReplayOn(first.dirty, s, changes[0]); } else { assert s + changes == s; }
  }

  lemma Told(t: Tables, repo: RepoId)
    requires repo in t.status && t.status[repo].headSha != ""
    requires Feed(t.events, repo, CommitEvent) == [] && Feed(t.events, repo, StatusEvent) == []
    ensures Tells(t, repo, t.status[repo])
  {
  }

  /**
   From a ledger with nothing about `repo`, after any run of statements that feed it, and of none that sweeps events
   away, its feed tells its story.
   */
  lemma {:induction false} FeedReplays(t: Tables, ss: seq<Statement>, repo: RepoId)
    requires Fresh(t, repo)
    requires forall i :: 0 <= i < |ss| ==> Feeds(ss[i], repo)
    ensures var u := After(t, ss);
      if repo in u.status then FirstRow(t, ss, repo).Some? && Tells(u, repo, FirstRow(t, ss, repo).value)
      else FirstRow(t, ss, repo).None? && Fresh(u, repo)
    decreases |ss|
  {
    hide Execute, Tells, Feed, Honest;
    if ss != [] {
      var n := |ss| - 1;
      FeedReplays(t, ss[..n], repo);
      var u, s := After(t, ss[..n]), ss[n];
      FeedStep(u, s, repo);
      if repo in u.status {
        if s.UpsertStatus? && s.repo == repo { UpsertTells(u, repo, s.row, s.now, FirstRow(t, ss[..n], repo).value); }
        else { OtherTells(u, s, repo, FirstRow(t, ss[..n], repo).value); }
      } else if repo in After(t, ss).status {
        Told(After(t, ss), repo);
      }
    }
  }

  /** A status row stays once it is there, and comes without events. */
  lemma FeedStep(t: Tables, s: Statement, repo: RepoId)
    requires Keeps(s, repo)
    ensures var u := Execute(t, s).0;
      && (repo in t.status ==> repo in u.status)
      && (repo !in t.status && repo in u.status ==> u.status[repo].headSha != "")
      && (repo !in t.status ==> Feed(u.events, repo, StatusEvent) == Feed(t.events, repo, StatusEvent))
      && (repo !in t.status ==> Feed(u.events, repo, CommitEvent) == Feed(t.events, repo, CommitEvent))
  {
    hide Feed;
    if !(s.UpsertStatus? && s.repo == repo) {
      FeedOther(t, s, repo, StatusEvent);
      FeedOther(t, s, repo, CommitEvent);
    }
  }

  lemma OtherTells(t: Tables, s: Statement, repo: RepoId, first: Status)
    requires Feeds(s, repo) && !(s.UpsertStatus? && s.repo == repo) && Tells(t, repo, first)
    ensures Tells(Execute(t, s).0, repo, first)
  {
    hide Feed, Follow, Replay, Execute;
    FeedOther(t, s, repo, StatusEvent);
    FeedOther(t, s, repo, CommitEvent);
  }

  /** So the feed replays over every run of the program's own updates, up to the first sweep. */
  lemma CallersReplay(t: Tables, ss: seq<Statement>, repo: RepoId)
    requires Fresh(t, repo)
    requires forall i :: 0 <= i < |ss| ==> Keeps(ss[i], repo) && (ss[i].UpsertStatus? ==> ss[i].row.sync in SYNC_WORDS)
    ensures repo in After(t, ss).status ==>
      FirstRow(t, ss, repo).Some? && Tells(After(t, ss), repo, FirstRow(t, ss, repo).value)
  {
    hide *;
    forall i | 0 <= i < |ss| ensures Feeds(ss[i], repo) { CallersAreHonest(ss[i], repo); }
    FeedReplays(t, ss, repo);
  }

  // ---- the dirty flag, whatever the sync texts ------------------------------------------------

  predicate Updates(s: Statement, repo: RepoId) { s.UpsertStatus? && s.repo == repo }

  /** Whether the flag is told straight after one more statement. */
  function StraightNow(t: Tables, s: Statement, repo: RepoId, straight: bool): bool {
    if !Updates(s, repo) || repo !in t.status then straight
    else if s.row.dirty != t.status[repo].dirty then true
    else if s.row.sync == t.status[repo].sync || (s.row.sync != "dirty" && s.row.sync != "clean") then straight
    else s.row.dirty == (s.row.sync == "dirty")
  }

  /** The last update that changed the flag, or gave the word for one, gave the right one. */
  predicate Straight(t: Tables, ss: seq<Statement>, repo: RepoId) {
    if ss == [] then true
    else
      var front := ss[..|ss| - 1];
      StraightNow(After(t, front), ss[|ss| - 1], repo, Straight(t, front, repo))
  }

  /**
   Over any run of updates without a sweep, whatever their sync texts, the status events replay the dirty flag if and
   only if that is so.
   */
  lemma {:induction false} FlagReplays(t: Tables, ss: seq<Statement>, repo: RepoId)
    requires repo !in t.status && Feed(t.events, repo, StatusEvent) == []
    requires forall i :: 0 <= i < |ss| ==> Keeps(ss[i], repo)
    ensures var u := After(t, ss);
      if repo in u.status then
        && FirstRow(t, ss, repo).Some?
        && (Replay(FirstRow(t, ss, repo).value.dirty, Feed(u.events, repo, StatusEvent)) == u.status[repo].dirty <==>
          Straight(t, ss, repo))
      else FirstRow(t, ss, repo).None? && Feed(u.events, repo, StatusEvent) == [] && Straight(t, ss, repo)
    decreases |ss|
  {
    hide Execute, Feed, Keeps, Replay;
    if ss != [] {
      var n := |ss| - 1;
      FlagReplays(t, ss[..n], repo);
      var u, s := After(t, ss[..n]), ss[n];
      FeedStep(u, s, repo);
      if !(s.UpsertStatus? && s.repo == repo) {
        FeedOther(u, s, repo, StatusEvent);
      } else if repo in u.status {
        FlagStep(u, repo, s.row, s.now, FirstRow(t, ss[..n], repo).value.dirty);
      } else if repo in After(t, ss).status {
        ReplayNothing(After(t, ss).status[repo].dirty);
      }
    }
  }

  lemma ReplayNothing(dirty: bool)
    ensures Replay(dirty, []) == dirty
  {
  }

  lemma FlagStep(t: Tables, repo: RepoId, row: Status, now: int, first: bool)
    requires repo in t.status
    ensures var was, u := t.status[repo], Execute(t, UpsertStatus(repo, row, now)).0;
      && u.status == t.status[repo := row]
      && Replay(first, Feed(u.events, repo, StatusEvent)) ==
        if row.dirty != was.dirty then row.dirty
        else if row.sync == was.sync || (row.sync != "dirty" && row.sync != "clean") then
          Replay(first, Feed(t.events, repo, StatusEvent))
        else row.sync == "dirty"
  {
    hide Feed, Replay;
    FeedUpsert(t, repo, row, now, repo, StatusEvent);
    var s, changes := Feed(t.events, repo, StatusEvent), StatusEvents(repo, t.status[repo], row, now);
    if changes != [] { ReplayOn(first, s, changes[0]); } else { assert s + changes == s; }
  }
}

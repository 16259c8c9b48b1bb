/**
 What the retention sweep leaves of the event feed: under a clock that never goes back, the end of
 each repo's story.
 */
module LedgerSweeps {
  import opened Ledger
  import opened LedgerRuns
  import opened Optional

  // ---- what a sweep leaves of a feed ----------------------------------------------------------

  lemma {:induction false} FeedRecent(es: seq<Event>, c: int, repo: RepoId, kind: EventKind)
    ensures Feed(Recent(es, c), repo, kind) == Recent(Feed(es, repo, kind), c)
  {
    if es != [] {
      var n := |es| - 1;
      var e, f := es[n], Feed(es[..n], repo, kind);
      FeedRecent(es[..n], c, repo, kind);
      FeedSnoc(Recent(es[..n], c), e, repo, kind);
      RecentSnoc(f, e, c);
      assert Recent(es[..n], c) + [] == Recent(es[..n], c) && f + [] == f;
    }
  }

  predicate Sorted(es: seq<Event>) { forall i, j :: 0 <= i < j < |es| ==> es[i].ts <= es[j].ts }

  predicate AllBy(es: seq<Event>, last: int) { forall i :: 0 <= i < |es| ==> es[i].ts <= last }

  lemma {:induction false} RecentNone(es: seq<Event>, c: int)
    requires forall i :: 0 <= i < |es| ==> es[i].ts < c
    ensures Recent(es, c) == []
  {
    if es != [] { RecentNone(es[..|es| - 1], c); }
  }

  lemma SortedFront(es: seq<Event>)
    requires Sorted(es) && es != []
    ensures Sorted(es[..|es| - 1]) && AllBy(es, es[|es| - 1].ts)
  {
  }

  /** Of events in order of time a sweep leaves the last ones. */
  lemma {:induction false} RecentIsEnd(es: seq<Event>, c: int) returns (k: nat)
    requires Sorted(es)
    ensures k <= |es| && Recent(es, c) == es[k..]
  {
    hide Recent, Sorted;
    if es == [] {
      RecentNone(es, c);
      k := 0;
    } else {
      var front, e := es[..|es| - 1], es[|es| - 1];
      SortedFront(es);
      if e.ts < c {
        RecentNone(es, c);
        k := |es|;
      } else {
        k := RecentIsEnd(front, c);
        assert es == front + [e];
        RecentSnoc(front, e, c);
        EndSnoc(front, e, k);
      }
    }
  }

  lemma EndSnoc(es: seq<Event>, e: Event, k: nat)
    requires k <= |es|
    ensures (es + [e])[k..] == es[k..] + [e]
  {
  }

  // ---- the end of a story -----------------------------------------------------------------------

  lemma {:induction false} FollowThrough(from: string, a: seq<Event>, b: seq<Event>)
    ensures Follow(from, a + b) == if Follow(from, a).Some? then Follow(Follow(from, a).value, b) else None
    decreases |b|
  {
    if b == [] {
      assert a + b == a;
    } else {
      var n := |b| - 1;
      FollowThrough(from, a, b[..n]);
      assert (a + b)[..|a + b| - 1] == a + b[..n] && (a + b)[|a + b| - 1] == b[n];
    }
  }

  lemma {:induction false} FollowBegins(from: string, c: seq<Event>)
    requires c != [] && Follow(from, c).Some?
    ensures c[0].shaBefore == Some(from)
  {
    if |c| > 1 { FollowBegins(from, c[..|c| - 1]); } else { assert c[..0] == []; }
  }

  /** The commit events chain, from wherever they begin, and end at `head`. */
  predicate Chains(c: seq<Event>, head: string) {
    c != [] ==> c[0].shaBefore.Some? && Follow(c[0].shaBefore.value, c) == Some(head)
  }

  lemma ChainsEnd(c: seq<Event>, head: string, k: nat)
    requires Chains(c, head) && k <= |c|
    ensures Chains(c[k..], head)
  {
    if k < |c| {
      assert c == c[..k] + c[k..];
      var from := c[0].shaBefore.value;
      FollowThrough(from, c[..k], c[k..]);
      FollowBegins(Follow(from, c[..k]).value, c[k..]);
    }
  }

  lemma ChainsOn(c: seq<Event>, head: string, e: Event)
    requires Chains(c, head) && e.shaBefore == Some(head) && e.shaAfter.Some? && e.shaAfter != e.shaBefore
    ensures Chains(c + [e], e.shaAfter.value)
  {
    if c == [] {
      var none: seq<Event> := [];
      assert Follow(head, none) == Some(head);
      FollowOn(head, none, e);
      assert none + [e] == c + [e];
    } else {
      FollowOn(c[0].shaBefore.value, c, e);
    }
  }

  predicate IsWord(e: Event) { e.detail == Some("dirty") || e.detail == Some("clean") }

  /** Some event is the word for a flag. */
  ghost predicate HasWord(es: seq<Event>) { exists i :: 0 <= i < |es| && IsWord(es[i]) }

  lemma {:induction false} ReplayThrough(dirty: bool, a: seq<Event>, b: seq<Event>)
    ensures Replay(dirty, a + b) == Replay(Replay(dirty, a), b)
    decreases |b|
  {
    if b == [] {
      assert a + b == a;
    } else {
      var n := |b| - 1;
      ReplayThrough(dirty, a, b[..n]);
      assert (a + b)[..|a + b| - 1] == a + b[..n] && (a + b)[|a + b| - 1] == b[n];
    }
  }

  /** Behind a word it does not matter what the flag was, and without one it stays as it was. */
  lemma {:induction false} ReplayFrom(x: bool, y: bool, es: seq<Event>)
    ensures HasWord(es) ==> Replay(x, es) == Replay(y, es)
    ensures !HasWord(es) ==> Replay(x, es) == x
    decreases |es|
  {
    if es != [] {
      var n := |es| - 1;
      WordAt(es, n);
      ReplayFrom(x, y, es[..n]);
      WordFront(es);
    }
  }

  lemma WordAt(es: seq<Event>, i: nat)
    requires i < |es|
    ensures IsWord(es[i]) ==> HasWord(es)
  {
  }

  lemma WordFront(es: seq<Event>)
    requires es != []
    ensures HasWord(es) <==> HasWord(es[..|es| - 1]) || IsWord(es[|es| - 1])
  {
    var n := |es| - 1;
    if HasWord(es) {
      var i :| 0 <= i < |es| && IsWord(es[i]);
      if i < n { assert es[..n][i] == es[i]; }
    }
    if HasWord(es[..n]) {
      var i :| 0 <= i < n && IsWord(es[..n][i]);
      assert es[i] == es[..n][i];
    }
  }

  /** The last word of a feed, if it has one, is that for the flag. */
  ghost predicate LastWord(es: seq<Event>, dirty: bool) { HasWord(es) ==> Replay(false, es) == dirty }

  // ---- runs with sweeps ---------------------------------------------------------------------------

  /** The clock never goes back from one status update of the repo to the next. */
  predicate Onward(ss: seq<Statement>, repo: RepoId) {
    forall i, j :: 0 <= i < j < |ss| && Updates(ss[i], repo) && Updates(ss[j], repo) ==> ss[i].now <= ss[j].now
  }

  /** The statement sweeps events away, or leaves the feed of `repo` whole. */
  predicate SweepsOrKeeps(s: Statement, repo: RepoId) { s.PruneStaleEvents? || Keeps(s, repo) }

  predicate UpdatedBy(ss: seq<Statement>, repo: RepoId, last: int) {
    forall i :: 0 <= i < |ss| && Updates(ss[i], repo) ==> ss[i].now <= last
  }

  /** A repo's feed stands in order of time. */
  lemma {:induction false} FeedSorted(t: Tables, ss: seq<Statement>, repo: RepoId, kind: EventKind, last: int)
    requires Fresh(t, repo) && !kind.Noted? && Onward(ss, repo) && UpdatedBy(ss, repo, last)
    requires forall i :: 0 <= i < |ss| ==> SweepsOrKeeps(ss[i], repo)
    ensures var f := Feed(After(t, ss).events, repo, kind); Sorted(f) && AllBy(f, last)
    decreases |ss|
  {
    hide Feed, Execute, Recent, Fresh, Keeps, StatusEvents, CommitEvents;
    if ss == [] {
      FreshIs(t, repo, kind);
    } else {
      var n := |ss| - 1;
      var u, s := After(t, ss[..n]), ss[n];
      FeedSorted(t, ss[..n], repo, kind, if Updates(s, repo) then s.now else last);
      FeedTurn(u, s, repo, kind);
    }
  }

  lemma FreshIs(t: Tables, repo: RepoId, kind: EventKind)
    requires Fresh(t, repo) && !kind.Noted?
    ensures Feed(t.events, repo, kind) == []
  {
    hide Feed;
  }

  /** One statement leaves the last events of the feed, or adds one of its own time. */
  lemma FeedTurn(t: Tables, s: Statement, repo: RepoId, kind: EventKind)
    requires !kind.Noted? && SweepsOrKeeps(s, repo) && Sorted(Feed(t.events, repo, kind))
    requires Updates(s, repo) ==> AllBy(Feed(t.events, repo, kind), s.now)
    ensures var f, g := Feed(t.events, repo, kind), Feed(Execute(t, s).0.events, repo, kind);
      && Sorted(g) && (forall last :: AllBy(f, last) && (Updates(s, repo) ==> s.now <= last) ==> AllBy(g, last))
  {
    hide Feed, Recent, Keeps;
    var f := Feed(t.events, repo, kind);
    if s.PruneStaleEvents? {
      FeedRecent(t.events, s.cutoff, repo, kind);
      var k := RecentIsEnd(f, s.cutoff);
    } else if !Updates(s, repo) {
      FeedOther(t, s, repo, kind);
    } else if repo in t.status {
      FeedUpsert(t, repo, s.row, s.now, repo, kind);
      assert f + [] == f;
    }
  }

  /** A sweep leaves the end of a feed that stands in order of time. */
  lemma SweptEnd(t: Tables, c: int, repo: RepoId, kind: EventKind) returns (k: nat)
    requires Sorted(Feed(t.events, repo, kind))
    ensures k <= |Feed(t.events, repo, kind)|
    ensures Feed(Execute(t, PruneStaleEvents(c)).0.events, repo, kind) == Feed(t.events, repo, kind)[k..]
    ensures Execute(t, PruneStaleEvents(c)).0.status == t.status
  {
    hide Feed, Recent;
    FeedRecent(t.events, c, repo, kind);
    k := RecentIsEnd(Feed(t.events, repo, kind), c);
  }

  /** What a feed still tells: how it came to the current commit, and the flag as far as a word for one is left. */
  ghost predicate StillTells(t: Tables, repo: RepoId, straight: bool) {
    && repo in t.status && t.status[repo].headSha != ""
    && Chains(Feed(t.events, repo, CommitEvent), t.status[repo].headSha)
    && var e := Feed(t.events, repo, StatusEvent);
       HasWord(e) ==> (Replay(false, e) == t.status[repo].dirty <==> straight)
  }

  /**
   From a ledger with nothing about `repo`, over every run of updates and sweeps under a clock that never goes back,
   and whatever the sync texts: the commit events that are left chain and end at the current commit, and the status
   events, as long as a word for a flag is left, end in the right one exactly when the last one given was right.
   */
  lemma {:induction false} SweptFeed(t: Tables, ss: seq<Statement>, repo: RepoId)
    requires Fresh(t, repo) && Onward(ss, repo) && forall i :: 0 <= i < |ss| ==> SweepsOrKeeps(ss[i], repo)
    ensures var u := After(t, ss);
      if repo in u.status then StillTells(u, repo, Straight(t, ss, repo)) else Fresh(u, repo)
    ensures repo !in After(t, ss).status ==> Straight(t, ss, repo)
    decreases |ss|
  {
    hide Feed, Execute, Fresh, Keeps, StillTells, Onward, Updates;
    if ss == [] {
      FreshHasNone(t, repo);
    } else {
      var n := |ss| - 1;
      var u, s := After(t, ss[..n]), ss[n];
      OnwardFront(ss, repo);
      SweptFeed(t, ss[..n], repo);
      var last := LatestUpdate(ss[..n], repo);
      FeedSorted(t, ss[..n], repo, CommitEvent, last);
      FeedSorted(t, ss[..n], repo, StatusEvent, last);
      UpdatesIs(s, repo);
      StraightNowIs(u, s, repo, Straight(t, ss[..n], repo));
      if s.PruneStaleEvents? {
        SweepTells(u, s.cutoff, repo, Straight(t, ss[..n], repo));
      } else {
        UpdateTells(u, s, repo, Straight(t, ss[..n], repo));
      }
    }
  }

  lemma FreshHasNone(t: Tables, repo: RepoId)
    ensures Fresh(t, repo) ==> repo !in t.status
  {
  }

  lemma OnwardFront(ss: seq<Statement>, repo: RepoId)
    requires ss != [] && Onward(ss, repo)
    ensures Onward(ss[..|ss| - 1], repo)
  {
    hide Updates;
  }

  lemma {:induction false} LatestUpdate(ss: seq<Statement>, repo: RepoId) returns (last: int)
    ensures UpdatedBy(ss, repo, last)
  {
    last := 0;
    if ss != [] {
      var n := |ss| - 1;
      var was := LatestUpdate(ss[..n], repo);
      last := if Updates(ss[n], repo) && ss[n].now > was then ss[n].now else was;
    }
  }

  lemma SweepTells(t: Tables, c: int, repo: RepoId, straight: bool)
    requires Sorted(Feed(t.events, repo, CommitEvent)) && Sorted(Feed(t.events, repo, StatusEvent))
    ensures var u := Execute(t, PruneStaleEvents(c)).0;
      && u.status == t.status
      && (Fresh(t, repo) ==> Fresh(u, repo))
      && (StillTells(t, repo, straight) ==> StillTells(u, repo, straight))
  {
    hide Feed, Recent, HasWord, Replay, Chains, Execute;
    var k := SweptEnd(t, c, repo, CommitEvent);
    var m := SweptEnd(t, c, repo, StatusEvent);
    var f, e := Feed(t.events, repo, CommitEvent), Feed(t.events, repo, StatusEvent);
    if StillTells(t, repo, straight) {
      ChainsEnd(f, t.status[repo].headSha, k);
      WordEnd(e, m);
    }
  }

  /** A word left is the last word. */
  lemma WordEnd(es: seq<Event>, k: nat)
    requires k <= |es|
    ensures HasWord(es[k..]) ==> HasWord(es) && Replay(false, es[k..]) == Replay(false, es)
  {
    hide Replay;
    assert es == es[..k] + es[k..];
    ReplayThrough(false, es[..k], es[k..]);
    ReplayFrom(Replay(false, es[..k]), false, es[k..]);
    if HasWord(es[k..]) {
      var i :| 0 <= i < |es| - k && IsWord(es[k..][i]);
      WordAt(es, k + i);
    }
  }

  lemma UpdateTells(t: Tables, s: Statement, repo: RepoId, straight: bool)
    requires Keeps(s, repo)
    requires if repo in t.status then StillTells(t, repo, straight) else Fresh(t, repo) && straight
    ensures var u := Execute(t, s).0;
      if repo in u.status then StillTells(u, repo, StraightNow(t, s, repo, straight))
      else Fresh(u, repo) && StraightNow(t, s, repo, straight)
  {
    hide *;
    UpdatesIs(s, repo);
    StraightNowIs(t, s, repo, straight);
    FreshHasNone(t, repo);
    if !Updates(s, repo) {
      FeedOther(t, s, repo, CommitEvent);
      FeedOther(t, s, repo, StatusEvent);
      SameTells(t, Execute(t, s).0, repo, straight);
    } else if repo in t.status {
      KeepsIs(s, repo);
      NewRowTells(t, repo, s.row, s.now, straight);
    } else {
      FeedStep(t, s, repo);
      FirstTells(t, Execute(t, s).0, repo, straight);
    }
  }

  lemma UpdatesIs(s: Statement, repo: RepoId)
    ensures Updates(s, repo) ==> s == UpsertStatus(repo, s.row, s.now)
    ensures Updates(s, repo) <==> s.UpsertStatus? && s.repo == repo
  {
  }

  lemma KeepsIs(s: Statement, repo: RepoId)
    requires Keeps(s, repo) && s.UpsertStatus? && s.repo == repo
    ensures s.row.headSha != ""
  {
  }

  lemma StraightNowIs(t: Tables, s: Statement, repo: RepoId, straight: bool)
    ensures !Updates(s, repo) || repo !in t.status ==> StraightNow(t, s, repo, straight) == straight
  {
  }

  lemma SameTells(t: Tables, u: Tables, repo: RepoId, straight: bool)
    requires forall kind :: kind == CommitEvent || kind == StatusEvent ==>
      Feed(u.events, repo, kind) == Feed(t.events, repo, kind)
    requires (repo in u.status <==> repo in t.status) && (repo in t.status ==> u.status[repo] == t.status[repo])
    ensures StillTells(t, repo, straight) ==> StillTells(u, repo, straight)
    ensures Fresh(t, repo) ==> Fresh(u, repo)
  {
    hide Feed, Chains, HasWord, Replay;
    assert Feed(u.events, repo, CommitEvent) == Feed(t.events, repo, CommitEvent);
    assert Feed(u.events, repo, StatusEvent) == Feed(t.events, repo, StatusEvent);
  }

  /** The first row comes without events. */
  lemma FirstTells(t: Tables, u: Tables, repo: RepoId, straight: bool)
    requires Fresh(t, repo) && straight
    requires Feed(u.events, repo, StatusEvent) == Feed(t.events, repo, StatusEvent)
    requires Feed(u.events, repo, CommitEvent) == Feed(t.events, repo, CommitEvent)
    requires repo in u.status ==> u.status[repo].headSha != ""
    ensures if repo in u.status then StillTells(u, repo, straight) else Fresh(u, repo)
  {
    hide Feed, Replay;
  }

  lemma NewRowTells(t: Tables, repo: RepoId, row: Status, now: int, straight: bool)
    requires StillTells(t, repo, straight) && row.headSha != ""
    ensures repo in Execute(t, UpsertStatus(repo, row, now)).0.status
    ensures var s := UpsertStatus(repo, row, now);
      StillTells(Execute(t, s).0, repo, StraightNow(t, s, repo, straight))
  {
    hide Feed, Chains, HasWord, Replay;
    FeedUpsert(t, repo, row, now, repo, CommitEvent);
    FeedUpsert(t, repo, row, now, repo, StatusEvent);
    var was := t.status[repo];
    var commits, changes := CommitEvents(repo, was, row, now), StatusEvents(repo, was, row, now);
    var c, e := Feed(t.events, repo, CommitEvent), Feed(t.events, repo, StatusEvent);
    if commits == [] { assert c + commits == c; } else { ChainsOn(c, was.headSha, commits[0]); }
    if changes == [] { assert e + changes == e; } else { WordOn(e, changes[0]); }
  }

  lemma WordOn(es: seq<Event>, e: Event)
    ensures HasWord(es + [e]) <==> HasWord(es) || IsWord(e)
    ensures Replay(false, es + [e]) ==
      if e.detail == Some("dirty") then true else if e.detail == Some("clean") then false else Replay(false, es)
  {
    hide Replay;
    WordFront(es + [e]);
    assert (es + [e])[..|es|] == es;
    ReplayOn(false, es, e);
  }

  // ---- the program's own runs ------------------------------------------------------------------------

  lemma {:induction false} HonestStraight(t: Tables, ss: seq<Statement>, repo: RepoId)
    requires forall i :: 0 <= i < |ss| && Updates(ss[i], repo) ==> Honest(ss[i].row)
    ensures Straight(t, ss, repo)
    decreases |ss|
  {
    hide Execute;
    if ss != [] {
      HonestStraight(t, ss[..|ss| - 1], repo);
    }
  }

  /**
   Over every run of the program's own updates, with sweeps between them and a clock that never goes back: the commit
   events left chain and end at the current commit, and the status events left end in the current flag if they tell
   one at all. They still tell the whole story exactly when the first of them begins at the first commit, and a word
   for a flag is left or none was needed.
   */
  lemma CallersSwept(t: Tables, ss: seq<Statement>, repo: RepoId, first: Status)
    requires Fresh(t, repo) && Onward(ss, repo) && forall i :: 0 <= i < |ss| ==> SweepsOrKeeps(ss[i], repo)
    requires forall i :: 0 <= i < |ss| && Updates(ss[i], repo) ==> ss[i].row.sync in SYNC_WORDS
    requires repo in After(t, ss).status
    ensures var u := After(t, ss);
      var now, c, e := u.status[repo], Feed(u.events, repo, CommitEvent), Feed(u.events, repo, StatusEvent);
      && Chains(c, now.headSha) && LastWord(e, now.dirty)
      && (Tells(u, repo, first) <==>
           && (if c == [] then first.headSha == now.headSha else c[0].shaBefore == Some(first.headSha))
           && (HasWord(e) || first.dirty == now.dirty))
  {
    hide *;
    AllHonest(ss, repo);
    HonestStraight(t, ss, repo);
    SweptFeed(t, ss, repo);
    WholeStory(After(t, ss), repo, first);
  }

  lemma AllHonest(ss: seq<Statement>, repo: RepoId)
    requires forall i :: 0 <= i < |ss| && Updates(ss[i], repo) ==> ss[i].row.sync in SYNC_WORDS
    ensures forall i :: 0 <= i < |ss| && Updates(ss[i], repo) ==> Honest(ss[i].row)
  {
    hide Honest;
    forall i | 0 <= i < |ss| && Updates(ss[i], repo) ensures Honest(ss[i].row) { WordsAreHonest(ss[i].row); }
  }

  lemma WordsAreHonest(row: Status)
    requires row.sync in SYNC_WORDS
    ensures Honest(row)
  {
    CallersAreHonest(UpsertStatus(0, row.(headSha := "x"), 0), 0);
  }

  lemma WholeStory(t: Tables, repo: RepoId, first: Status)
    requires StillTells(t, repo, true)
    ensures var now, c, e := t.status[repo], Feed(t.events, repo, CommitEvent), Feed(t.events, repo, StatusEvent);
      && Chains(c, now.headSha) && LastWord(e, now.dirty)
      && (Tells(t, repo, first) <==>
           && (if c == [] then first.headSha == now.headSha else c[0].shaBefore == Some(first.headSha))
           && (HasWord(e) || first.dirty == now.dirty))
  {
    hide Feed, HasWord, Replay;
    var c, e := Feed(t.events, repo, CommitEvent), Feed(t.events, repo, StatusEvent);
    ReplayFrom(first.dirty, false, e);
    if c != [] && Follow(first.headSha, c).Some? { FollowBegins(first.headSha, c); }
  }

  // ---- a clock that goes back ---------------------------------------------------------------------------

  function At(sha: string): Status { Status(false, false, "ahead", "main", sha) }

  function Commit(ts: int, was: string, sha: string): Event {
    Event(ts, CommitEvent, Some(0), None, Some(was), Some(sha))
  }

  /** The ledger of a repo that is now at `sha`. */
  function Ledgered(sha: string, events: seq<Event>): Tables { Tables({0}, map[], map[], map[0 := At(sha)], events) }

  lemma Committed(was: string, sha: string, events: seq<Event>, now: int)
    requires was != "" && sha != "" && was != sha
    ensures Execute(Ledgered(was, events), UpsertStatus(0, At(sha), now)).0 ==
      Ledgered(sha, events + [Commit(now, was, sha)])
  {
    assert map[0 := At(was)][0 := At(sha)] == map[0 := At(sha)];
    assert events + [] == events;
  }

  /** Three commits at the times 10, 5 and 10, then a sweep up to 7: what is left is no chain. */
  const BACKWARD: seq<Statement> := [
    UpsertStatus(0, At("a"), 10), UpsertStatus(0, At("b"), 10), UpsertStatus(0, At("c"), 5),
    UpsertStatus(0, At("d"), 10), PruneStaleEvents(7)]

  /** Without that clock the sweep can take the middle of the story. */
  lemma BackwardClock()
    ensures var t := EMPTY.(repos := {0});
      && Fresh(t, 0) && (forall i :: 0 <= i < |BACKWARD| ==> SweepsOrKeeps(BACKWARD[i], 0)) && !Onward(BACKWARD, 0)
      && 0 in After(t, BACKWARD).status
      && !Chains(Feed(After(t, BACKWARD).events, 0, CommitEvent), After(t, BACKWARD).status[0].headSha)
  {
    hide Execute, Feed, Follow;
    var t := EMPTY.(repos := {0});
    var e1, e2, e3 := Commit(10, "a", "b"), Commit(5, "b", "c"), Commit(10, "c", "d");
    BackwardRun(t);
    assert Updates(BACKWARD[1], 0) && Updates(BACKWARD[2], 0);
    FewFeeds(e1, e3);
    BrokenChain(e1, e3);
    NoFeed(t);
  }

  lemma NoFeed(t: Tables)
    requires t == EMPTY.(repos := {0})
    ensures Fresh(t, 0)
  {
  }

  lemma BackwardRun(t: Tables)
    requires t == EMPTY.(repos := {0})
    ensures After(t, BACKWARD) == Ledgered("d", [Commit(10, "a", "b"), Commit(10, "c", "d")])
  {
    hide Execute, Recent;
    var e1, e2, e3 := Commit(10, "a", "b"), Commit(5, "b", "c"), Commit(10, "c", "d");
    var b := BACKWARD;
    AfterOn(t, b, 0);
    AfterOn(t, b, 1);
    AfterOn(t, b, 2);
    AfterOn(t, b, 3);
    AfterOn(t, b, 4);
    assert b[..5] == b && b[..0] == [];
    FirstCommit(t);
    Committed("a", "b", [], 10);
    Committed("b", "c", [] + [e1], 5);
    Committed("c", "d", [] + [e1] + [e2], 10);
    Swept("d", e1, e2, e3);
    assert [] + [e1] + [e2] + [e3] == [e1, e2, e3];
  }

  lemma AfterOn(t: Tables, ss: seq<Statement>, n: nat)
    requires n < |ss|
    ensures After(t, ss[..n + 1]) == Execute(After(t, ss[..n]), ss[n]).0
    ensures After(t, []) == t
  {
    hide Execute;
    assert ss[..n + 1][..n] == ss[..n];
  }

  lemma FirstCommit(t: Tables)
    requires t == EMPTY.(repos := {0})
    ensures Execute(t, UpsertStatus(0, At("a"), 10)).0 == Ledgered("a", [])
  {
  }

  lemma Swept(sha: string, e1: Event, e2: Event, e3: Event)
    requires e1.ts == e3.ts == 10 && e2.ts == 5
    ensures Execute(Ledgered(sha, [e1, e2, e3]), PruneStaleEvents(7)).0 == Ledgered(sha, [e1, e3])
  {
    hide Recent;
    var none: seq<Event> := [];
    assert Recent(none, 7) == none by { RecentNone(none, 7); }
    RecentSnoc(none, e1, 7);
    RecentSnoc([e1], e2, 7);
    RecentSnoc([e1, e2], e3, 7);
    assert none + [e1] == [e1] && [e1] + [e2] == [e1, e2] && [e1, e2] + [e3] == [e1, e2, e3] && [e1] + [e3] == [e1, e3];
    assert [e1] + none == [e1];
  }

  lemma FewFeeds(e1: Event, e3: Event)
    requires e1 == Commit(10, "a", "b") && e3 == Commit(10, "c", "d")
    ensures Feed([e1, e3], 0, CommitEvent) == [e1, e3]
  {
    hide Feed;
    var none: seq<Event> := [];
    FeedSnoc(none, e1, 0, CommitEvent);
    FeedSnoc([e1], e3, 0, CommitEvent);
    assert Feed(none, 0, CommitEvent) == none by { NothingFed(); }
    assert none + [e1] == [e1] && [e1] + [e3] == [e1, e3];
  }

  lemma NothingFed()
    ensures Feed([], 0, CommitEvent) == []
  {
  }

  lemma BrokenChain(e1: Event, e3: Event)
    requires e1 == Commit(10, "a", "b") && e3 == Commit(10, "c", "d")
    ensures !Chains([e1, e3], "d")
  {
    assert [e1, e3][..1] == [e1] && [e1][..0] == [];
    assert Follow("a", [e1]) == Some("b");
    assert "b"[0] != "c"[0];
  }
}

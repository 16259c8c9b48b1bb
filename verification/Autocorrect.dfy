/**
 The choice `correct` of autocorrect.rs makes once the candidates are scored and sorted: which
 group of names is nearest, and whether one of them may be run unasked.
 */
module Autocorrect {
  import opened Bytes
  import L = Levenshtein
  import W = LevenshteinWords

  const SIMILARITY_FLOOR := 7

  const SHOW := -4
  const PROMPT := -3
  const NEVER := -2

  datatype Candidate = Candidate(name: Bytes, score: int)

  predicate StartsWith(s: Bytes, p: Bytes) { |p| <= |s| && s[..|p|] == p }

  /** A common command the typo is a prefix of scores nothing, any other its distance and one. */
  function Score(cmd: Bytes, name: Bytes, common: set<Bytes>): (r: int)
    ensures r >= 0 && (r == 0 <==> name in common && StartsWith(name, cmd))
  {
    if name in common && StartsWith(name, cmd) then 0
    else
      L.ZeroForSame(cmd, name, L.Weights(0, 2, 1, 3));
      L.Distance(cmd, name, |cmd|, |name|, L.Weights(0, 2, 1, 3)) + 1
  }

  /** The candidate list, scored by calls of `levenshtein`. */
  method ScoreAll(cmd: Bytes, names: seq<Bytes>, common: set<Bytes>) returns (scored: seq<Candidate>)
    ensures |scored| == |names|
    ensures forall i :: 0 <= i < |names| ==> scored[i] == Candidate(names[i], Score(cmd, names[i], common))
  {
    scored := [];
    for i := 0 to |names|
      invariant |scored| == i
      invariant forall k :: 0 <= k < i ==> scored[k] == Candidate(names[k], Score(cmd, names[k], common))
    {
      var score := 0;
      if !(names[i] in common && StartsWith(names[i], cmd)) {
        var d := L.Compute(cmd, names[i], L.Weights(0, 2, 1, 3));
        score := d + 1;
      }
      scored := scored + [Candidate(names[i], score)];
    }
  }

  predicate Sorted(s: seq<Candidate>) {
    forall i, j :: 0 <= i < j < |s| ==> s[i].score <= s[j].score
  }

  /** The group that is suggested: how many lead the sorted list, and at what score. */
  datatype Group = Group(n: nat, best: int)

  predicate IsGroup(s: seq<Candidate>, g: Group) {
    && g.n <= |s|
    && (forall k :: 0 <= k < g.n ==> s[k].score == 0 || s[k].score == g.best)
    && (forall k :: g.n <= k < |s| ==> s[k].score > 0 && s[k].score > g.best)
    && g.best > 0
    && (if exists k :: 0 <= k < |s| && s[k].score > 0 then exists k :: 0 <= k < g.n && s[k].score == g.best
        else g.best == SIMILARITY_FLOOR + 1)
  }

  /** Scanning the sorted candidates for the nearest group. */
  method NearestGroup(scored: seq<Candidate>) returns (g: Group)
    requires Sorted(scored) && forall k :: 0 <= k < |scored| ==> scored[k].score >= 0
    ensures IsGroup(scored, g)
  {
    var n := 0;
    while n < |scored| && scored[n].score == 0
      invariant n <= |scored| && forall k :: 0 <= k < n ==> scored[k].score == 0
    {
      n := n + 1;
    }
    if |scored| <= n {
      return Group(n, SIMILARITY_FLOOR + 1);
    }
    var best := scored[n].score;
    ghost var first := n;
    n := n + 1;
    while n < |scored| && scored[n].score == best
      invariant first < n <= |scored|
      invariant forall k :: 0 <= k < n ==> scored[k].score == 0 || scored[k].score == best
    {
      n := n + 1;
    }
    assert scored[first].score == best;
    return Group(n, best);
  }

  datatype Correction = Use(name: Bytes) | Suggest(names: seq<Bytes>) | NoSuggestion

  function Names(s: seq<Candidate>): (r: seq<Bytes>)
    ensures |r| == |s| && forall i :: 0 <= i < |s| ==> r[i] == s[i].name
  {
    seq(|s|, i requires 0 <= i < |s| => s[i].name)
  }

  function Downgraded(configured: int, terminals: bool): int {
    if configured == PROMPT && !terminals then NEVER else configured
  }

  /** The setting lets a command be run unasked. */
  predicate Acts(a: int) { a != NEVER && a != 0 && a != SHOW }

  /** `c` is the one nearest candidate: it occurs once, every other scores more, and it is no prefix match. */
  ghost predicate Stands(all: multiset<Candidate>, c: Candidate) {
    all[c] == 1 && 0 < c.score < SIMILARITY_FLOOR && forall o :: o in all && o != c ==> o.score > c.score
  }

  /** Some candidate is similar without being a prefix match. */
  predicate Near(s: seq<Candidate>) { exists k :: 0 <= k < |s| && 0 < s[k].score < SIMILARITY_FLOOR }

  /** `correct`, from the sorted list on; `confirmed` is the answer at the prompt. A command is run exactly when
   the setting acts and one candidate stands out, and that candidate is the one run. */
  method Correct(scored: seq<Candidate>, configured: int, terminals: bool, confirmed: bool) returns (c: Correction)
    requires Sorted(scored) && forall k :: 0 <= k < |scored| ==> scored[k].score >= 0
    ensures var a := Downgraded(configured, terminals);
      var stands := exists k :: 0 <= k < |scored| && Stands(multiset(scored), scored[k]);
      && (c.Use? <==> Acts(a) && stands && (a == PROMPT ==> confirmed))
      && (c.Suggest? <==> a != NEVER && Near(scored) && !(Acts(a) && stands))
    ensures forall k :: 0 <= k < |scored| && Stands(multiset(scored), scored[k]) && c.Use? ==> c.name == scored[k].name
    ensures c.Suggest? ==> exists g: Group :: IsGroup(scored, g) && c.names == Names(scored[..g.n])
  {
    hide IsGroup, Stands;
    var autocorrect := configured;
    if autocorrect == PROMPT && !terminals { autocorrect := NEVER; }
    if autocorrect == NEVER { return NoSuggestion; }
    if scored == [] { return NoSuggestion; }
    var g := NearestGroup(scored);
    var similarEnough := g.best < SIMILARITY_FLOOR;
    LoneGroup(scored, g);
    NearGroup(scored, g);
    if autocorrect != 0 && autocorrect != SHOW && g.n == 1 && similarEnough {
      var assumed := scored[0].name;
      if autocorrect == PROMPT && !confirmed { return NoSuggestion; }
      return Use(assumed);
    }
    if similarEnough { return Suggest(Names(scored[..g.n])); }
    return NoSuggestion;
  }

  lemma NearGroup(s: seq<Candidate>, g: Group)
    requires IsGroup(s, g)
    ensures g.n <= |s| && (g.best < SIMILARITY_FLOOR <==> Near(s))
  {
  }

  lemma FirstApart(s: seq<Candidate>)
    requires s != []
    ensures multiset(s)[s[0]] == 1 <==> s[0] !in s[1..]
  {
    assert s == [s[0]] + s[1..];
    assert multiset(s) == multiset{s[0]} + multiset(s[1..]);
  }

  /** In a sorted list only the first can stand out, and it does when all after it score more. */
  lemma FirstStands(s: seq<Candidate>)
    requires Sorted(s) && s != []
    ensures Stands(multiset(s), s[0]) <==>
      0 < s[0].score < SIMILARITY_FLOOR && forall k :: 1 <= k < |s| ==> s[k].score > s[0].score
    ensures forall k :: 0 <= k < |s| && Stands(multiset(s), s[k]) ==> s[k] == s[0]
  {
    FirstApart(s);
    if Stands(multiset(s), s[0]) {
      forall k | 1 <= k < |s|
        ensures s[k].score > s[0].score
      {
        assert s[k] == s[1..][k - 1] && s[k] in multiset(s);
      }
    }
    if forall k :: 1 <= k < |s| ==> s[k].score > s[0].score {
      assert forall k :: 0 <= k < |s| - 1 ==> s[1..][k] == s[k + 1];
    }
    forall k | 0 <= k < |s| && Stands(multiset(s), s[k])
      ensures s[k] == s[0]
    {
      assert s[0] in multiset(s);
    }
  }

  lemma LoneGroup(s: seq<Candidate>, g: Group)
    requires Sorted(s) && s != [] && IsGroup(s, g)
    ensures g.n == 1 && g.best < SIMILARITY_FLOOR <==> exists k :: 0 <= k < |s| && Stands(multiset(s), s[k])
    ensures forall k :: 0 <= k < |s| && Stands(multiset(s), s[k]) ==> s[k] == s[0]
  {
    FirstStands(s);
    hide Stands;
    if Stands(multiset(s), s[0]) {
      assert |s| > 1 ==> s[1].score > s[0].score;
    }
    if g.n == 1 && g.best < SIMILARITY_FLOOR {
      assert s[0].score == g.best;
    }
  }

  // ---- what the choices come to ------------------------------------------------------------------

  /** `status` for `stauts` is as near as can be without being it, and so is any two letters exchanged; a letter too few
   costs one more, a wrong one two, one too many three; a common command that begins with the typo is nearest of all. */
  lemma ScoresOf(a: Bytes, p: Byte, q: Byte, b: Bytes, common: set<Bytes>)
    ensures a + [q, p] + b !in common ==> Score(a + [p, q] + b, a + [q, p] + b, common) == 1
    ensures p != q && a + [q] + b !in common ==> Score(a + [p] + b, a + [q] + b, common) <= 3
    ensures a + [q] + b !in common ==> Score(a + b, a + [q] + b, common) <= 2
    ensures a + b !in common ==> Score(a + [p] + b, a + b, common) <= 4
    ensures a + b in common ==> Score(a, a + b, common) == 0
    ensures Score([97], [97, 98], {}) == 2 && Score([97], [98], {}) == 3 && Score([97, 98], [97], {}) == 4
  {
    hide L.Distance;
    W.Swapped(a, p, q, b);
    W.OneSlip(a, p, q, b, L.Weights(0, 2, 1, 3));
    W.SmallDistances();
    assert (a + b)[..|a|] == a;
  }

  /** Seven is too far, and so is a prefix match for running unasked; what is negative acts when it is `immediate` or a
   prompt, and a prompt without terminals is `never`. */
  lemma Settings(name: Bytes)
    ensures !Acts(0) && !Acts(-2) && !Acts(-4) && Acts(-1) && Acts(-3) && forall delay :: delay > 0 ==> Acts(delay)
    ensures Downgraded(-3, false) == -2 && Downgraded(-3, true) == -3 && Downgraded(-1, false) == -1
    ensures Stands(multiset{Candidate(name, 6)}, Candidate(name, 6))
    ensures !Stands(multiset{Candidate(name, 7)}, Candidate(name, 7))
    ensures !Stands(multiset{Candidate(name, 0)}, Candidate(name, 0))
    ensures Near([Candidate(name, 6)]) && !Near([Candidate(name, 7)]) && !Near([Candidate(name, 0)])
  {
    assert [Candidate(name, 6)][0].score == 6;
  }
}

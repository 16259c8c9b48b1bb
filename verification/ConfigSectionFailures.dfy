/**
 Inputs on which a copy and a rename of a section do not do to the entries what they are for: one
 for each condition of `ConfigSectionMeaning` that is about the header's line.
 */
module ConfigSectionFailures {
  import opened Bytes
  import opened ConfigGrammar
  import opened ConfigFacts
  import opened ConfigFailures
  import opened ConfigFresh
  import opened ConfigMeaning
  import opened ConfigWriter
  import opened Optional
  import R = ConfigRename
  import S = ConfigSections

  /** A line by itself is the file's one line. */
  lemma OneLineFile(l: Bytes)
    requires S.OneLine(l)
    ensures S.Lines(l) == [l]
  {
    hide *;
    S.SingleApart(l);
    S.LinesJoin([l]);
    S.JoinOne(l);
  }

  lemma FromInit(text: Bytes)
    ensures Entries(text) == EntriesFrom(INIT, text)
  {
    hide EntriesFrom;
  }

  lemma NothingFrom(stem: Stem)
    ensures EntriesFrom(Top(stem, false), []) == Some([])
  {
    TopQuiet(stem);
    NothingLeft(Top(stem, false));
  }

  // ---- an entry on the header's line ------------------------------------------------------------

  /** `[a] k=v` and its line end */
  const INLINE: Bytes := [91, 97, 93, 32, 107, 61, 118, 10]

  const A_STEM: Stem := Stem([97, 46], true)
  const B_STEM: Stem := Stem([98, 46], true)

  /** `a.k` */
  const AK: Bytes := [97, 46, 107]

  lemma InlineHit()
    ensures S.OneLine(INLINE) && S.Hit(INLINE, [97]) && S.Short([INLINE])
  {
    assert INLINE[0..] == INLINE;
    assert R.MatchFrom(INLINE, 1, [97], 0, false) ==
      R.MatchFrom(INLINE, 2, [97], 1, false) == R.Verdict(INLINE, 2, [97], 1);
  }

  lemma InlineSteps()
    ensures Delta(INIT, 91) == BaseVar([]) && Delta(BaseVar([]), 97) == BaseVar([97])
    ensures Delta(BaseVar([97]), 93) == Top(A_STEM, false) && Delta(Top(A_STEM, false), 32) == Top(A_STEM, false)
    ensures Delta(Top(A_STEM, false), 107) == Name(A_STEM, AK)
    ensures Delta(Name(A_STEM, AK), 61) == Value(A_STEM, AK, false, false, 0, [])
    ensures Delta(Value(A_STEM, AK, false, false, 0, []), 118) == Value(A_STEM, AK, false, false, 0, [118])
    ensures Delta(Value(A_STEM, AK, false, false, 0, [118]), 10) == Top(A_STEM, false)
    ensures PairOf(Value(A_STEM, AK, false, false, 0, [118]), 10) == [Pair(AK, Some([118]))]
  {
    assert [] + [Lower(97)] == [97] && [97] + [DOT] == A_STEM.name && A_STEM.name + [Lower(107)] == AK;
    assert [] + [118] == [118];
  }

  lemma InlineRead(rest: Bytes)
    ensures Entries(INLINE + rest) == Prefixed([Pair(AK, Some([118]))], EntriesFrom(Top(A_STEM, false), rest))
  {
    hide EntriesFrom, Delta, PairOf;
    var r1: Bytes := [10] + rest;
    var r2: Bytes := [118] + r1;
    var r3: Bytes := [61] + r2;
    var r4: Bytes := [107] + r3;
    var r5: Bytes := [32] + r4;
    var r6: Bytes := [93] + r5;
    var r7: Bytes := [97] + r6;
    assert INLINE + rest == [91] + r7;
    InlineSteps();
    InlineQuiet();
    FromInit(INLINE + rest);
    EntriesStep(INIT, 91, r7);
    EntriesStep(BaseVar([]), 97, r6);
    EntriesStep(BaseVar([97]), 93, r5);
    EntriesStep(Top(A_STEM, false), 32, r4);
    EntriesStep(Top(A_STEM, false), 107, r3);
    EntriesStep(Name(A_STEM, AK), 61, r2);
    EntriesStep(Value(A_STEM, AK, false, false, 0, []), 118, r1);
    EntriesUnfold(Value(A_STEM, AK, false, false, 0, [118]), r1);
    assert r1[1..] == rest;
  }

  lemma InlineQuiet()
    ensures PairOf(INIT, 91) == [] && forall m, c :: c != LF ==> PairOf(m, c) == []
  {
  }

  lemma CopyRead()
    ensures SectionLine([98]) == [91, 98, 93, 10]
    ensures EntriesFrom(Top(A_STEM, false), [91, 98, 93, 10]) == Some([])
  {
    hide EntriesFrom;
    assert [91, 98, 93, 10] == [91] + ([98] + ([93] + ([10] + [])));
    assert [] + [Lower(98)] == [98] && [98] + [DOT] == B_STEM.name;
    EntriesStep(Top(A_STEM, false), 91, [98] + ([93] + ([10] + [])));
    EntriesStep(BaseVar([]), 98, [93] + ([10] + []));
    EntriesStep(BaseVar([98]), 93, [10] + []);
    EntriesStep(Top(B_STEM, false), 10, []);
    NothingFrom(B_STEM);
  }

  /** A copy leaves out the entry that stands on the header's line: the section `b` it writes is empty. */
  lemma InlineNotCopied()
    ensures Entries(INLINE) == Some([Pair(AK, Some([118]))])
    ensures var r := S.Outcome(INLINE, [97], Some([98]), true);
      r == S.Done(INLINE + SectionLine([98]), 1) && Entries(r.out) == Some([Pair(AK, Some([118]))])
  {
    hide *;
    InlineHit();
    OneLineFile(INLINE);
    BareFacts();
    S.CopyOutcome(INLINE, [97], [98]);
    OneCopied(INLINE, [97], [98]);
    OneHit(INLINE, [97]);
    InlineRead([]);
    InlineRead(SectionLine([98]));
    NothingFrom(A_STEM);
    CopyRead();
    assert INLINE + [] == INLINE;
    JustOne(Pair(AK, Some([118])));
  }

  lemma JustOne(p: Pair)
    ensures Prefixed([p], Some([])) == Some([p])
  {
    assert [p] + [] == [p];
  }

  lemma OneHit(l: Bytes, a: Bytes)
    requires S.Hit(l, a)
    ensures S.Hits([l], a) == 1
  {
    hide S.Hit;
    var ls: seq<Bytes> := [l];
    var none: seq<Bytes> := [];
    assert ls[0] == l && ls[1..] == none;
    S.HitsNext(ls, a);
    S.NothingOutside(a);
  }

  // ---- a header cut short ---------------------------------------------------------------------------

  /** `[a "b]"]` and its line end: the subsection `b]` of `a` */
  const CUT: Bytes := [91, 97, 32, 34, 98, 93, 34, 93, 10]

  /** `a.b` */
  const AB: Bytes := [97, 46, 98]

  const CUT_STEM: Stem := Stem([97, 46, 98, 93, 46], false)
  const X_STEM: Stem := Stem([120, 46], true)

  lemma CutHit()
    ensures S.OneLine(CUT) && S.Hit(CUT, AB) && S.HeaderEnd(CUT, AB) == 6 && S.Short([CUT])
  {
    assert CUT[0..] == CUT;
    CutMatch();
  }

  lemma CutMatch()
    ensures R.NameMatch(CUT, AB) == 6
  {
    hide R.MatchFrom, R.SkipSpaces;
    CutFrom(1, 0, false);
    CutFrom(2, 1, false);
    CutFrom(4, 2, true);
    CutFrom(5, 3, true);
    CutSpaces();
  }

  lemma CutSpaces()
    ensures R.SkipSpaces(CUT, 3) == 3 && R.SkipSpaces(CUT, 6) == 6
  {
  }

  lemma CutFrom(i: nat, j: nat, dot: bool)
    requires (i, j, dot) == (1, 0, false) || (i, j, dot) == (2, 1, false) || (i, j, dot) == (4, 2, true) ||
      (i, j, dot) == (5, 3, true)
    ensures R.MatchFrom(CUT, i, AB, j, dot) ==
      if i == 1 then R.MatchFrom(CUT, 2, AB, 1, false)
      else if i == 2 then R.MatchFrom(CUT, 4, AB, 2, true)
      else if i == 4 then R.MatchFrom(CUT, 5, AB, 3, true)
      else R.SkipSpaces(CUT, 6)
  {
    CutSpaces();
  }

  lemma CutSteps()
    ensures Delta(INIT, 91) == BaseVar([]) && Delta(BaseVar([]), 97) == BaseVar([97])
    ensures Delta(BaseVar([97]), 32) == ExtSpace([97]) && Delta(ExtSpace([97]), 34) == ExtBody([97, 46])
    ensures Delta(ExtBody([97, 46]), 98) == ExtBody(AB) && Delta(ExtBody(AB), 93) == ExtBody([97, 46, 98, 93])
    ensures Delta(ExtBody([97, 46, 98, 93]), 34) == ExtClose([97, 46, 98, 93])
    ensures Delta(ExtClose([97, 46, 98, 93]), 93) == Top(CUT_STEM, false)
    ensures Delta(Top(CUT_STEM, false), 10) == Top(CUT_STEM, false) && PairOf(Top(CUT_STEM, false), 10) == []
  {
    assert [] + [Lower(97)] == [97] && [97] + [DOT] == [97, 46] && [97, 46] + [98] == AB;
    assert AB + [93] == [97, 46, 98, 93] && [97, 46, 98, 93] + [DOT] == CUT_STEM.name;
  }

  lemma CutRead()
    ensures Entries(CUT) == Some([])
  {
    hide EntriesFrom, Delta, PairOf;
    CutSteps();
    InlineQuiet();
    FromInit(CUT);
    var r1: Bytes := [10] + [];
    var r2: Bytes := [93] + r1;
    var r3: Bytes := [34] + r2;
    var r4: Bytes := [93] + r3;
    var r5: Bytes := [98] + r4;
    var r6: Bytes := [34] + r5;
    var r7: Bytes := [32] + r6;
    var r8: Bytes := [97] + r7;
    assert CUT == [91] + r8;
    EntriesStep(INIT, 91, r8);
    EntriesStep(BaseVar([]), 97, r7);
    EntriesStep(BaseVar([97]), 32, r6);
    EntriesStep(ExtSpace([97]), 34, r5);
    EntriesStep(ExtBody([97, 46]), 98, r4);
    EntriesStep(ExtBody(AB), 93, r3);
    EntriesStep(ExtBody([97, 46, 98, 93]), 34, r2);
    EntriesStep(ExtClose([97, 46, 98, 93]), 93, r1);
    EntriesStep(Top(CUT_STEM, false), 10, []);
    NothingFrom(CUT_STEM);
  }

  /** What the rename writes: `[x]`, and what it took to stand behind the header on a line of its own. */
  const TURNED: Bytes := [91, 120, 93, 10, 9, 34, 93, 10]

  lemma CutTurned()
    ensures S.Join(S.TurnedAll([CUT], AB, [120])) == TURNED
  {
    hide S.Join, S.Hit, S.HeaderEnd;
    CutHit();
    var ls: seq<Bytes> := [CUT];
    var none: seq<Bytes> := [];
    assert ls[1..] == none;
    assert CUT[6..] == [34, 93, 10] && [TAB] + [34, 93, 10] == [9, 34, 93, 10];
    var x: Bytes := [91, 120, 93, 10];
    var y: Bytes := [9, 34, 93, 10];
    assert SectionLine([120]) == x;
    assert S.TurnedAll(ls, AB, [120]) == [x] + ([y] + none);
    S.JoinCons(x, [y] + none);
    S.JoinCons(y, none);
    S.JoinNone();
    assert x + (y + []) == TURNED;
  }

  lemma TurnedSteps()
    ensures Delta(INIT, 91) == BaseVar([]) && Delta(BaseVar([]), 120) == BaseVar([120])
    ensures Delta(BaseVar([120]), 93) == Top(X_STEM, false) && Delta(Top(X_STEM, false), 10) == Top(X_STEM, false)
    ensures PairOf(Top(X_STEM, false), 10) == [] && Delta(Top(X_STEM, false), 9) == Top(X_STEM, false)
    ensures Delta(Top(X_STEM, false), 34) == Failed
  {
    assert [] + [Lower(120)] == [120] && [120] + [DOT] == X_STEM.name;
  }

  lemma TurnedRead()
    ensures Entries(TURNED) == None
  {
    hide EntriesFrom, Delta, PairOf;
    TurnedSteps();
    InlineQuiet();
    FromInit(TURNED);
    var r2: Bytes := [34] + [93, 10];
    var r3: Bytes := [9] + r2;
    var r4: Bytes := [10] + r3;
    var r5: Bytes := [93] + r4;
    var r6: Bytes := [120] + r5;
    assert TURNED == [91] + r6;
    EntriesStep(INIT, 91, r6);
    EntriesStep(BaseVar([]), 120, r5);
    EntriesStep(BaseVar([120]), 93, r4);
    EntriesStep(Top(X_STEM, false), 10, r3);
    EntriesStep(Top(X_STEM, false), 9, r2);
    EntriesStep(Top(X_STEM, false), 34, [93, 10]);
    FailedFrom([93, 10]);
  }

  lemma FailedFrom(r: Bytes)
    ensures EntriesFrom(Failed, r) == None
  {
    WalkFailed(r);
  }

  /**
   The comparison stops at a `]` inside a quoted subsection: renaming `a.b` cuts the header of another section in
   two, and the file that is written does not parse.
   */
  lemma BracketCutsHeader()
    ensures Entries(CUT) == Some([])
    ensures var r := S.Outcome(CUT, AB, Some([120]), false); r == S.Done(TURNED, 1) && Entries(r.out) == None
  {
    hide *;
    CutHit();
    OneLineFile(CUT);
    S.RenameOutcome(CUT, AB, [120]);
    OneHit(CUT, AB);
    CutTurned();
    CutRead();
    TurnedRead();
  }
}

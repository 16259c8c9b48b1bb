/**
 The editor on one small file, every byte written out: what is read from it, and what each kind of
 edit makes of it.
 */
module ConfigExamples {
  import opened Bytes
  import opened ConfigEdit
  import opened ConfigFacts
  import opened ConfigGrammar
  import opened ConfigKey
  import opened ConfigLines
  import opened ConfigScan
  import opened ConfigText
  import opened ConfigCuts
  import opened Optional
  import F = ConfigFailures
  import P = ConfigTextParse
  import W = ConfigWriter

  // ---- reading ------------------------------------------------------------------------------------

  /** `[core]`, a line end, and `editor = vim ; mine` on a line of its own */
  const EDITOR: Bytes :=
    [91, 99, 111, 114, 101, 93, 10, 9, 101, 100, 105, 116, 111, 114, 32, 61, 32, 118, 105, 109, 32, 59, 32, 109, 105,
     110, 101, 10]

  /** It is one entry, `core.editor` with the value `vim`. */
  lemma EditorRead()
    ensures Entries(EDITOR) ==
      Some([Pair([99, 111, 114, 101, 46, 101, 100, 105, 116, 111, 114], Some([118, 105, 109]))])
  {
    hide Entries, SmallAll, P.OneSetting;
    var core, editor, vim := [99, 111, 114, 101], [101, 100, 105, 116, 111, 114], [118, 105, 109];
    P.UnquotedReads(core, editor, vim, [32], 59, [32, 109, 105, 110, 101]);
    EditorBytes(core, editor, vim);
    SmallLetters(core);
    SmallLetters(editor);
  }

  lemma EditorBytes(core: Bytes, editor: Bytes, vim: Bytes)
    requires core == [99, 111, 114, 101] && editor == [101, 100, 105, 116, 111, 114] && vim == [118, 105, 109]
    ensures P.OneSetting(core, editor, vim, [32] + [59] + [32, 109, 105, 110, 101]) == EDITOR
    ensures core + [46] + editor == [99, 111, 114, 101, 46, 101, 100, 105, 116, 111, 114]
  {
    var head, tail := [91] + core + [93, 10, 9], vim + ([32] + [59] + [32, 109, 105, 110, 101]) + [10];
    assert head == [91, 99, 111, 114, 101, 93, 10, 9];
    assert tail == [118, 105, 109, 32, 59, 32, 109, 105, 110, 101, 10];
    assert P.OneSetting(core, editor, vim, [32] + [59] + [32, 109, 105, 110, 101]) ==
      head + editor + [32, 61, 32] + tail;
    assert head + editor + [32, 61, 32] == EDITOR[..17] && tail == EDITOR[17..];
  }

  lemma {:induction false} SmallLetters(s: Bytes)
    requires forall i :: 0 <= i < |s| ==> 97 <= s[i] <= 122
    ensures SmallAll(s) == s
  {
    if s != [] { SmallLetters(s[1..]); }
  }

  // ---- the file -------------------------------------------------------------------------------------

  /** `[a]`, a line end, and `b = 1` behind a TAB on a line of its own */
  const ONE: Bytes := [91, 97, 93, 10, 9, 98, 32, 61, 32, 49, 10]

  /** And another entry, `c = 2` */
  const TWO: Bytes := [91, 97, 93, 10, 9, 98, 32, 61, 32, 49, 10, 9, 99, 32, 61, 32, 50, 10]

  /** `a.b`, `a.c` and `x.y` */
  const AB: Bytes := [97, 46, 98]
  const AC: Bytes := [97, 46, 99]
  const XY: Bytes := [120, 46, 121]

  function For(key: Bytes): RawQuery { Query(key, 1, Any, false) }

  const A_STEM: Stem := Stem([97, 46], true)

  lemma KeysAre()
    ensures ValidQuery(For(AB)) && ValidQuery(For(AC)) && ValidQuery(For(XY))
    ensures For(AB).InSection(A_STEM) && For(AC).InSection(A_STEM) && !For(XY).InSection(A_STEM)
  {
    assert AB[..1] == AC[..1] == A_STEM.name[..1] == [97] && XY[..1] == [120];
    assert LowerAll([97])[0] == 97 && LowerAll([120])[0] == 120;
  }

  // ---- its parse ------------------------------------------------------------------------------------

  /** The store behind the header's line, when the header is the key's section's. */
  const OWN: StoreState :=
    StoreState([Parsed(0, 3, Section, true)], 1, [0], 0, true, true, true, false, Whitespace, 3)

  /** And when it is not. */
  const OTHERS: StoreState :=
    StoreState([Parsed(0, 3, Section, false)], 1, [], 0, false, false, false, false, Whitespace, 3)

  lemma HeaderScanned(q: RawQuery, rest: Bytes)
    ensures Scan(q, [91, 97, 93, 10] + rest) ==
      Drive(q, if q.InSection(A_STEM) then OWN else OTHERS, Top(A_STEM, false), 4, rest)
  {
    hide Drive, RawQuery.InSection;
    var r1, r2, r3 := [10] + rest, [93] + ([10] + rest), [97] + ([93] + ([10] + rest));
    assert [91, 97, 93, 10] + rest == [91] + r3;
    F.Step(q, EMPTY_STORE, INIT, 0, 91, r3);
    F.StepInside(q, F.OPENED, BaseVar([]), 1, 97, r2);
    F.StepInside(q, F.OPENED, BaseVar([97]), 2, 93, r1);
    assert [] + [Lower(97)] == [97] && [97] + [DOT] == [97, 46];
    F.Step(q, F.OPENED, Top(A_STEM, false), 3, 10, rest);
    HeaderClosed(q);
  }

  lemma HeaderClosed(q: RawQuery)
    ensures DoEvent(q, F.OPENED, Whitespace, 3, A_STEM) == if q.InSection(A_STEM) then OWN else OTHERS
  {
    hide RawQuery.InSection;
    assert [0][0 := 0] == [0];
    assert [Parsed(0, 0, Eof, false)][0 := Parsed(0, 3, Section, true)] == [Parsed(0, 3, Section, true)];
    assert [Parsed(0, 0, Eof, false)][0 := Parsed(0, 3, Section, false)] == [Parsed(0, 3, Section, false)];
  }

  /** The store once a line `n = v` of section `a` has been opened, and its entry read. */
  function Opened(q: RawQuery, s: StoreState, pos: nat): StoreState
    requires s.parsedNr <= |s.parsed|
  {
    DoEvent(q, DoEvent(q, s, Whitespace, pos, A_STEM), Entry, pos + 1, A_STEM)
  }

  lemma LineDriven(q: RawQuery, s: StoreState, pos: nat, n: Byte, v: Byte, rest: Bytes)
    requires s.parsedNr <= |s.parsed| && 97 <= n <= 122 && 48 <= v <= 57
    ensures Drive(q, s, Top(A_STEM, false), pos, [9, n, 32, 61, 32, v, 10] + rest) ==
      Drive(q, OnPairs(q, Opened(q, s, pos), [Pair([97, 46, n], Some([v]))]), Top(A_STEM, false), pos + 7, rest)
  {
    hide Drive, DoEvent, OnPairs;
    var key, t := [97, 46, n], Opened(q, s, pos);
    var r1, r2 := [10] + rest, [v] + ([10] + rest);
    var r3, r4 := [32] + r2, [61] + ([32] + r2);
    var r5, r6 := [32] + r4, [n] + ([32] + r4);
    assert [9, n, 32, 61, 32, v, 10] + rest == [9] + r6;
    LineOpens(q, s, pos, n, r5);
    F.StepInside(q, t, Name(A_STEM, key), pos + 2, 32, r4);
    F.StepInside(q, t, NameSpace(A_STEM, key), pos + 3, 61, r3);
    F.StepInside(q, t, Value(A_STEM, key, false, false, 0, []), pos + 4, 32, r2);
    F.StepInside(q, t, Value(A_STEM, key, false, false, 0, []), pos + 5, v, r1);
    assert [] + [v] == [v];
    F.Step(q, t, Value(A_STEM, key, false, false, 0, [v]), pos + 6, 10, rest);
  }

  lemma LineOpens(q: RawQuery, s: StoreState, pos: nat, n: Byte, rest: Bytes)
    requires s.parsedNr <= |s.parsed| && 97 <= n <= 122
    ensures Drive(q, s, Top(A_STEM, false), pos, [9] + ([n] + rest)) ==
      Drive(q, Opened(q, s, pos), Name(A_STEM, [97, 46, n]), pos + 2, rest)
  {
    hide Drive, DoEvent;
    F.Step(q, s, Top(A_STEM, false), pos, 9, [n] + rest);
    F.Step(q, DoEvent(q, s, Whitespace, pos, A_STEM), Top(A_STEM, false), pos + 1, n, rest);
    assert A_STEM.name + [Lower(n)] == [97, 46, n];
  }

  lemma FileEnds(q: RawQuery, s: StoreState, pos: nat)
    requires s.parsedNr <= |s.parsed|
    ensures Drive(q, s, Top(A_STEM, false), pos, []) == Some(DoEvent(q, s, Eof, pos, A_STEM))
  {
    hide DoEvent;
    DriveTop(q, s, Top(A_STEM, false), pos, []);
  }

  /** The events of `ONE`: the header, blanks and the entry. */
  function Events(own: bool): seq<Parsed> {
    [Parsed(0, 3, Section, own), Parsed(3, 5, Whitespace, false), Parsed(5, 11, Entry, false)]
  }

  /** The parse for `a.b`, which is found; for `a.c`, whose section is; and for `x.y`. */
  lemma OneScanned()
    ensures Scan(For(AB), ONE) == Some(StoreState(Events(true), 3, [2], 1, true, true, true, true, Eof, 11))
    ensures Scan(For(AC), ONE) == Some(StoreState(Events(true), 3, [2], 0, true, true, true, false, Eof, 11))
    ensures Scan(For(XY), ONE) == Some(StoreState(Events(false), 3, [], 0, false, false, false, false, Eof, 11))
  {
    hide Drive, Scan;
    KeysAre();
    var line := [9, 98, 32, 61, 32, 49, 10];
    assert ONE == [91, 97, 93, 10] + line && line == line + [];
    HeaderScanned(For(AB), line);
    HeaderScanned(For(AC), line);
    HeaderScanned(For(XY), line);
    LineDriven(For(AB), OWN, 4, 98, 49, []);
    LineDriven(For(AC), OWN, 4, 98, 49, []);
    LineDriven(For(XY), OTHERS, 4, 98, 49, []);
    EntryMet(For(AB), OWN);
    EntryMet(For(AC), OWN);
    EntryMet(For(XY), OTHERS);
    EntryKeys();
  }

  lemma EntryKeys()
    ensures AB != AC && AB != XY && AC != XY
  {
    assert AB[2] == 98 && AC[2] == 99 && XY[0] == 120;
  }

  /** What the entry `a.b` and the end of the file leave in the store. */
  lemma EntryMet(q: RawQuery, s: StoreState)
    requires s == OWN || s == OTHERS
    requires q.matcher == Any
    ensures var t := OnPairs(q, Opened(q, s, 4), [Pair(AB, Some([49]))]);
      && t.parsedNr <= |t.parsed|
      && Drive(q, t, Top(A_STEM, false), 11, []) ==
           Some(if s == OTHERS then StoreState(Events(false), 3, [], 0, false, false, false, false, Eof, 11)
                else if q.key == AB then StoreState(Events(true), 3, [2], 1, true, true, true, true, Eof, 11)
                else StoreState(Events(true), 3, [2], 0, true, true, true, false, Eof, 11))
  {
    hide Drive, RawQuery.InSection;
    var p := Pair(AB, Some([49]));
    var t := OnPairs(q, Opened(q, s, 4), [p]);
    assert [p][1..] == [] && [0][0 := 2] == [2];
    FileEnds(q, t, 11);
    var own := s == OWN;
    assert [Parsed(0, 3, Section, own)] + [Parsed(3, 5, Whitespace, false)] + [Parsed(5, 11, Entry, false)] ==
      Events(own);
  }

  /** The parse of `TWO` for `a.b`. */
  const FOUND: StoreState :=
    StoreState([Parsed(0, 3, Section, true), Parsed(3, 5, Whitespace, false), Parsed(5, 11, Entry, false),
                Parsed(11, 12, Whitespace, false), Parsed(12, 18, Entry, false)],
      5, [2], 1, true, true, true, true, Eof, 18)

  lemma TwoScanned()
    ensures Scan(For(AB), TWO) == Some(FOUND)
  {
    hide Drive, Scan;
    KeysAre();
    var line, more := [9, 98, 32, 61, 32, 49, 10], [9, 99, 32, 61, 32, 50, 10];
    assert TWO == [91, 97, 93, 10] + (line + more) && more == more + [];
    HeaderScanned(For(AB), line + more);
    LineDriven(For(AB), OWN, 4, 98, 49, more);
    SecondEntry();
  }

  lemma SecondEntry()
    ensures Drive(For(AB), OnPairs(For(AB), Opened(For(AB), OWN, 4), [Pair(AB, Some([49]))]), Top(A_STEM, false), 11,
      [9, 99, 32, 61, 32, 50, 10]) == Some(FOUND)
  {
    hide Drive, RawQuery.InSection, Opened, OnPairs, DoEvent;
    var q, p, r := For(AB), Pair(AB, Some([49])), Pair(AC, Some([50]));
    var s := OnPairs(q, Opened(q, OWN, 4), [p]);
    assert [9, 99, 32, 61, 32, 50, 10] == [9, 99, 32, 61, 32, 50, 10] + [];
    FirstLeft();
    MetFits();
    LineDriven(q, s, 11, 99, 50, []);
    SecondLeft();
    FileEnds(q, OnPairs(q, Opened(q, s, 11), [r]), 18);
  }

  /** The store while the first entry is open, its pair delivered. */
  const MET: StoreState :=
    StoreState([Parsed(0, 3, Section, true), Parsed(3, 5, Whitespace, false)], 2, [2], 1, true, true, true, true, Entry,
      5)

  lemma MetFits()
    ensures MET.parsedNr <= |MET.parsed|
  {
  }

  lemma FirstLeft()
    ensures OnPairs(For(AB), Opened(For(AB), OWN, 4), [Pair(AB, Some([49]))]) == MET
  {
    var p := Pair(AB, Some([49]));
    assert [p][1..] == [] && [0][0 := 2] == [2];
    assert [Parsed(0, 3, Section, true)] + [Parsed(3, 5, Whitespace, false)] == MET.parsed;
  }

  lemma SecondLeft()
    ensures var t := OnPairs(For(AB), Opened(For(AB), MET, 11), [Pair(AC, Some([50]))]);
      t.parsedNr <= |t.parsed| && DoEvent(For(AB), t, Eof, 18, A_STEM) == FOUND
  {
    var r := Pair(AC, Some([50]));
    assert [r][1..] == [];
    EntryKeys();
    assert MET.parsed + [Parsed(5, 11, Entry, false)] + [Parsed(11, 12, Whitespace, false)]
      + [Parsed(12, 18, Entry, false)] == FOUND.parsed;
  }

  // ---- unset ------------------------------------------------------------------------------------------

  lemma AnyMatches(key: Bytes)
    ensures forall p: Pair :: For(key).Matches(p) <==> p.key == key
  {
  }

  /** With its one entry the section goes, and nothing is left of the file. */
  lemma SectionGoes()
    ensures ValidQuery(For(AB)) && Edit(For(AB), AB, Some(ONE), None, None) == EditResult.Written([])
  {
    hide Scan, Edited, Usable, FinalGood, Emptied, BlanksTo;
    KeysAre();
    OneScanned();
    var q, s := For(AB), Scan(For(AB), ONE).value;
    ScanGood(q, ONE);
    ScanUsable(q, ONE);
    AlreadyPlaced(s);
    OneEmptied(q);
    UnsetLeaves(q, ONE, s, AB, None, 0, 3);
    var x :| 0 <= x <= |ONE| && BlanksTo(ONE, x, 0) && Edited(s, ONE, AB, 1, None, None) == Ended(ONE[..x]) + ONE[11..];
    NoBlanks(x);
    assert ONE[..0] == [] && ONE[11..] == [];
  }

  lemma NoBlanks(x: nat)
    requires x <= |ONE| && BlanksTo(ONE, x, 0)
    ensures x == 0
  {
  }

  lemma AlreadyPlaced(s: StoreState)
    requires s.seenNr != 0
    ensures Placed(s) == s
  {
  }

  lemma OneEmptied(q: RawQuery)
    ensures Emptied(q, ONE, Events(true)[..3], 2, 0, 3)
  {
    hide Matched;
    assert Events(true)[..3] == Events(true);
  }

  /** Where another entry stays, so does the header. */
  lemma SectionStays()
    ensures ValidQuery(For(AB))
    ensures Edit(For(AB), AB, Some(TWO), None, None) ==
      EditResult.Written([91, 97, 93, 10, 9, 99, 32, 61, 32, 50, 10])
  {
    hide Scan, Edited, Usable, FinalGood, Emptied, BlanksTo;
    KeysAre();
    TwoScanned();
    var q := For(AB);
    ScanGood(q, TWO);
    ScanUsable(q, TWO);
    AlreadyPlaced(FOUND);
    NotEmptied(q);
    UnsetLeaves(q, TWO, FOUND, AB, None, 2, 3);
    var x :|
      0 <= x <= |TWO| && BlanksTo(TWO, x, 5) && Edited(FOUND, TWO, AB, 1, None, None) == Ended(TWO[..x]) + TWO[11..];
    OneBlank(x);
    TwoCut();
  }

  lemma TwoCut()
    ensures Ended(TWO[..4]) + TWO[11..] == [91, 97, 93, 10, 9, 99, 32, 61, 32, 50, 10]
  {
    assert TWO[..4] == [91, 97, 93, 10] && TWO[11..] == [9, 99, 32, 61, 32, 50, 10];
  }

  lemma OneBlank(x: nat)
    requires x <= |TWO| && BlanksTo(TWO, x, 5)
    ensures x == 4
  {
    assert TWO[4] == 9 && TWO[3] == 10;
  }

  lemma NotEmptied(q: RawQuery)
    requires FinalGood(q, TWO, FOUND)
    ensures forall x, y :: !Emptied(q, TWO, FOUND.parsed[..5], 2, x, y)
  {
    hide FinalGood;
    LastNotMatched(q);
    assert FOUND.parsed[..5] == FOUND.parsed;
    assert FOUND.parsed[3].ty == Whitespace && FOUND.parsed[4].ty == Entry && |FOUND.parsed| == 5;
  }

  lemma LastNotMatched(q: RawQuery)
    requires FinalGood(q, TWO, FOUND)
    ensures !Matched(q, TWO, FOUND.parsed[4])
  {
    hide Matched, Tiled;
    assert FOUND.seen[..1] == [2];
  }

  // ---- set ----------------------------------------------------------------------------------------------

  lemma LinesAre()
    ensures W.PairLine([98], [50], None) == [9, 98, 32, 61, 32, 50, 10]
    ensures W.PairLine([99], [50], None) == [9, 99, 32, 61, 32, 50, 10]
    ensures W.PairLine([121], [49], None) == [9, 121, 32, 61, 32, 49, 10] && W.SectionLine([120]) == [91, 120, 93, 10]
    ensures W.PairLine([98], [49], None) == [9, 98, 32, 61, 32, 49, 10] && W.SectionLine([97]) == [91, 97, 93, 10]
  {
    hide W.PairLine, W.SectionLine;
    DigitLine(98, 50);
    DigitLine(99, 50);
    DigitLine(121, 49);
    DigitLine(98, 49);
    HeaderIs([120], []);
    HeaderIs([97], []);
    assert [91] + [120] + [93, 10] == [91, 120, 93, 10] && [91] + [97] + [93, 10] == [91, 97, 93, 10];
  }

  lemma DigitLine(n: Byte, v: Byte)
    requires 48 <= v <= 57
    ensures W.PairLine([n], [v], None) == [9, n, 32, 61, 32, v, 10]
  {
    hide W.PairLine;
    LineIs([n], [v], None);
    assert AllInValue([v]) == [Letter(v)] && [Letter(v)][1..] == [];
    assert PiecesText([Letter(v)]) == [v];
    assert [9] + [n] + [32, 61, 32] + [v] + [] + [10] == [9, n, 32, 61, 32, v, 10];
  }

  /** A value is replaced where it stands; a new entry goes behind the last of its section; a new section, and one in a
   file that is not there, goes to the end. */
  lemma SetsWritten()
    ensures ValidQuery(For(AB)) && ValidQuery(For(AC)) && ValidQuery(For(XY))
    ensures Edit(For(AB), AB, Some(ONE), Some([50]), None) ==
      EditResult.Written([91, 97, 93, 10, 9, 98, 32, 61, 32, 50, 10])
    ensures Edit(For(AC), AC, Some(ONE), Some([50]), None) ==
      EditResult.Written([91, 97, 93, 10, 9, 98, 32, 61, 32, 49, 10, 9, 99, 32, 61, 32, 50, 10])
    ensures Edit(For(XY), XY, Some(ONE), Some([49]), None) ==
      EditResult.Written([91, 97, 93, 10, 9, 98, 32, 61, 32, 49, 10, 91, 120, 93, 10, 9, 121, 32, 61, 32, 49, 10])
    ensures Edit(For(AB), AB, None, Some([49]), None) == EditResult.Written(ONE)
  {
    hide Scan, Edited, Usable, W.PairLine, W.SectionLine;
    KeysAre();
    OneScanned();
    ScanUsable(For(AB), ONE);
    ScanUsable(For(AC), ONE);
    ScanUsable(For(XY), ONE);
    EditOf(For(AB), AB, Some([50]));
    EditOf(For(AC), AC, Some([50]));
    EditOf(For(XY), XY, Some([49]));
    Replaced();
    Inserted();
    Appended();
    NewFile();
  }

  lemma EditOf(q: RawQuery, key: Bytes, v: Option<Bytes>)
    requires q.baselen < |key| && Scan(q, ONE).Some? && v.Some? && Scan(q, ONE).value.seenNr <= 1
    requires Usable(Placed(Scan(q, ONE).value), ONE) && ValidQuery(q)
    ensures Edit(q, key, Some(ONE), v, None) ==
      EditResult.Written(Edited(Scan(q, ONE).value, ONE, key, q.baselen, v, None))
  {
    hide Scan, Edited, Usable;
  }

  lemma NewFile()
    ensures ValidQuery(For(AB)) && Edit(For(AB), AB, None, Some([49]), None) == EditResult.Written(ONE)
  {
    hide W.PairLine, W.SectionLine;
    KeysAre();
    LinesAre();
    assert AB[..1] == [97] && AB[2..] == [98];
    assert [91, 97, 93, 10] + [9, 98, 32, 61, 32, 49, 10] == ONE;
  }

  lemma Cuts()
    ensures Swallowed(ONE, 5) == 4 && WithLineEnd(ONE, 11) == 11
    ensures Copied(ONE, 0, 4) == [91, 97, 93, 10]
    ensures Copied(ONE, 0, 11) == ONE && ONE[11..] == []
  {
    assert |ONE| == 11 && ONE[4] == 9 && ONE[3] == 10 && ONE[10] == 10 && Swallowed(ONE, 4) == 4;
    assert ONE[0..4] == [91, 97, 93, 10] && ONE[0..11] == ONE;
    assert [91, 97, 93, 10] + [] == [91, 97, 93, 10] && ONE + [] == ONE;
  }

  lemma Replaced()
    requires Scan(For(AB), ONE) == Some(StoreState(Events(true), 3, [2], 1, true, true, true, true, Eof, 11))
    requires Usable(Placed(Scan(For(AB), ONE).value), ONE)
    ensures Edited(Scan(For(AB), ONE).value, ONE, AB, 1, Some([50]), None) ==
      [91, 97, 93, 10, 9, 98, 32, 61, 32, 50, 10]
  {
    hide Scan, Edited, Usable, Swallowed, WithLineEnd, Copied, W.PairLine, W.SectionLine;
    Cuts();
    LinesAre();
    var s := StoreState(Events(true), 3, [2], 1, true, true, true, true, Eof, 11);
    EditedSet(s, ONE, AB, 1, [50], None, Cut(4, 11, 1));
    assert AB[2..] == [98];
    assert [91, 97, 93, 10] + ([] + [9, 98, 32, 61, 32, 50, 10]) + [] == [91, 97, 93, 10, 9, 98, 32, 61, 32, 50, 10];
  }

  lemma Inserted()
    requires Scan(For(AC), ONE) == Some(StoreState(Events(true), 3, [2], 0, true, true, true, false, Eof, 11))
    requires Usable(Placed(Scan(For(AC), ONE).value), ONE)
    ensures Edited(Scan(For(AC), ONE).value, ONE, AC, 1, Some([50]), None) ==
      [91, 97, 93, 10, 9, 98, 32, 61, 32, 49, 10, 9, 99, 32, 61, 32, 50, 10]
  {
    hide Scan, Edited, Usable, Swallowed, WithLineEnd, Copied, W.PairLine, W.SectionLine;
    Cuts();
    LinesAre();
    var s := StoreState(Events(true), 3, [2], 0, true, true, true, false, Eof, 11);
    EditedSet(s, ONE, AC, 1, [50], None, Cut(11, 11, 1));
    assert AC[2..] == [99];
    assert ONE + ([] + [9, 99, 32, 61, 32, 50, 10]) + [] ==
      [91, 97, 93, 10, 9, 98, 32, 61, 32, 49, 10, 9, 99, 32, 61, 32, 50, 10];
  }

  lemma Appended()
    requires Scan(For(XY), ONE) == Some(StoreState(Events(false), 3, [], 0, false, false, false, false, Eof, 11))
    requires Usable(Placed(Scan(For(XY), ONE).value), ONE)
    ensures Edited(Scan(For(XY), ONE).value, ONE, XY, 1, Some([49]), None) ==
      [91, 97, 93, 10, 9, 98, 32, 61, 32, 49, 10, 91, 120, 93, 10, 9, 121, 32, 61, 32, 49, 10]
  {
    hide Scan, Edited, Usable, Swallowed, WithLineEnd, Copied, W.PairLine, W.SectionLine;
    Cuts();
    LinesAre();
    var s := StoreState(Events(false), 3, [], 0, false, false, false, false, Eof, 11);
    EditedSet(s, ONE, XY, 1, [49], None, Cut(11, 11, 1));
    assert XY[..1] == [120] && XY[2..] == [121];
    assert ONE + ([91, 120, 93, 10] + [9, 121, 32, 61, 32, 49, 10]) + [] ==
      [91, 97, 93, 10, 9, 98, 32, 61, 32, 49, 10, 91, 120, 93, 10, 9, 121, 32, 61, 32, 49, 10];
  }

  // ---- a section without entries -----------------------------------------------------------------------

  /** `[a]` and its line end, and `[a]` alone */
  const HEADED: Bytes := [91, 97, 93, 10]
  const BARE: Bytes := [91, 97, 93]

  lemma HeadersScanned()
    ensures Scan(For(AB), HEADED) ==
      Some(StoreState([Parsed(0, 3, Section, true), Parsed(3, 4, Whitespace, false)], 2, [0], 0, true, true, true,
        false,
        Eof, 4))
    ensures Scan(For(AB), BARE) ==
      Some(StoreState([Parsed(0, 3, Section, true)], 1, [0], 0, true, true, true, false, Eof, 3))
  {
    hide Drive, Scan, RawQuery.InSection;
    KeysAre();
    assert HEADED == HEADED + [];
    HeaderScanned(For(AB), []);
    FileEnds(For(AB), OWN, 4);
    assert [Parsed(0, 3, Section, true)] + [Parsed(3, 4, Whitespace, false)] ==
      [Parsed(0, 3, Section, true), Parsed(3, 4, Whitespace, false)];
    BareScanned(For(AB));
  }

  lemma BareScanned(q: RawQuery)
    requires q.InSection(A_STEM)
    ensures Scan(q, BARE) ==
      Some(StoreState([Parsed(0, 3, Section, true)], 1, [0], 0, true, true, true, false, Eof, 3))
  {
    hide Drive, Scan, DoEvent, RawQuery.InSection;
    BareRead(q);
    FileEnds(q, F.OPENED, 3);
    BareClosed(q);
  }

  lemma BareRead(q: RawQuery)
    ensures Scan(q, BARE) == Drive(q, F.OPENED, Top(A_STEM, false), 3, [])
  {
    hide Drive, RawQuery.InSection;
    var r1, r2 := [93] + [], [97] + ([93] + []);
    assert BARE == [91] + r2;
    F.Step(q, EMPTY_STORE, INIT, 0, 91, r2);
    F.StepInside(q, F.OPENED, BaseVar([]), 1, 97, r1);
    F.StepInside(q, F.OPENED, BaseVar([97]), 2, 93, []);
    assert [] + [Lower(97)] == [97] && [97] + [DOT] == [97, 46];
  }

  lemma BareClosed(q: RawQuery)
    requires q.InSection(A_STEM)
    ensures DoEvent(q, F.OPENED, Eof, 3, A_STEM) ==
      StoreState([Parsed(0, 3, Section, true)], 1, [0], 0, true, true, true, false, Eof, 3)
  {
    hide RawQuery.InSection;
    assert [0][0 := 0] == [0];
    assert [Parsed(0, 0, Eof, false)][0 := Parsed(0, 3, Section, true)] == [Parsed(0, 3, Section, true)];
  }

  /** The first entry goes right behind the header's line, which is ended if it was not. */
  lemma FirstEntryWritten()
    ensures ValidQuery(For(AB))
    ensures Edit(For(AB), AB, Some(HEADED), Some([49]), None) == EditResult.Written(ONE)
    ensures Edit(For(AB), AB, Some(BARE), Some([49]), None) == EditResult.Written(ONE)
  {
    hide Scan, Edited, Usable, W.PairLine, W.SectionLine;
    KeysAre();
    HeadersScanned();
    LinesAre();
    ScanUsable(For(AB), HEADED);
    ScanUsable(For(AB), BARE);
    InsertLeaves(HEADED, Scan(For(AB), HEADED).value, AB, 1, [49], None, 0);
    InsertLeaves(BARE, Scan(For(AB), BARE).value, AB, 1, [49], None, 0);
    assert AB[2..] == [98];
    HeaderBytes();
  }

  lemma HeaderBytes()
    ensures |HEADED| == 4 && |BARE| == 3 && HEADED[2] == BARE[2] == 93 && HEADED[3] == 10
    ensures Ended(HEADED[..4]) + [] + [9, 98, 32, 61, 32, 49, 10] + HEADED[4..] == ONE
    ensures Ended(BARE[..3]) + [] + [9, 98, 32, 61, 32, 49, 10] + BARE[3..] == ONE
  {
    assert HEADED[..4] == HEADED && BARE[..3] == BARE && BARE + [10] == HEADED;
    assert Ended(HEADED) == HEADED && Ended(BARE) == HEADED;
    assert HEADED[4..] == [] && BARE[3..] == [];
    assert HEADED + [] + [9, 98, 32, 61, 32, 49, 10] + [] == ONE;
  }
}

/**
 Inputs on which an edit of a configuration file does not do what it is for: one for each clause
 of the conditions in `ConfigFresh.Faithful`, `ConfigAgain.SetTwice`, `ConfigSections.CopyThenRemove`
 and `ConfigRename.OwnMatch`.
 */
module ConfigFailures {
  import opened Bytes
  import opened ConfigGrammar
  import opened ConfigScan
  import opened ConfigFacts
  import opened ConfigKey
  import opened ConfigWriter
  import opened ConfigEdit
  import opened ConfigMeaning
  import opened ConfigFresh
  import opened ConfigAgain
  import opened Optional
  import R = ConfigRename
  import S = ConfigSections

  /** `s.k` */
  const SK: Bytes := [115, 46, 107]

  const Q: RawQuery := Query(SK, 1, Any, false)

  /** `v` */
  const V: Bytes := [118]

  lemma KeyIs()
    ensures ValidQuery(Q) && WellFormedKey(SK, 1) && Canonical(SK, 1) == SK
    ensures Q.InSection(Stem([115, 46], true))
  {
    assert FirstDot(SK) == 1 by { assert SK[1..] == [46, 107] && SK[0] != DOT; }
    assert Canonical(SK, 1) == SK;
  }

  /** A set of `key` to `v` in `text`, whose scan left `s`, is not read back as intended. */
  ghost predicate Misread(q: Query, key: Bytes, text: Bytes, s: StoreState, v: Bytes) {
    && Scan(q, text) == Some(s) && Entries(text).Some? && (s.keySeen || s.seenNr == 0)
    && q.baselen < |key| && Usable(Placed(s), text)
    && Entries(Edited(s, text, key, q.baselen, Some(v), None)) != Some(Intended(q, text, s, v))
  }

  lemma NotFaithfulMisread(q: Query, key: Bytes, text: Bytes, s: StoreState, v: Bytes)
    requires Scan(q, text) == Some(s) && WellFormedKey(key, q.baselen) && q.key == Canonical(key, q.baselen)
    requires Usable(Placed(s), text) && (s.keySeen || s.seenNr == 0) ==> !Faithful(q, text, s, v)
    ensures Misread(q, key, text, s, v)
  {
    hide Scan, Entries, Usable, Edited, Intended, Faithful, CommentOk, Canonical;
    NoComment();
    SetThenRead(q, key, text, s, v, None);
  }

  lemma NoComment()
    ensures CommentOk(None)
  {
  }

  // ---- the scan, step by step ------------------------------------------------------------------

  lemma Step(q: RawQuery, s: StoreState, m: Mode, pos: nat, c: Byte, rest: Bytes)
    requires s.parsedNr <= |s.parsed| && !m.Failed? && c != CR
    ensures Drive(q, s, m, pos, [c] + rest) == Drive(q, Feed(q, s, m, pos + 1, c), Delta(m, c), pos + 1, rest)
  {
    hide Feed, Delta, Drive;
    DriveUnfold(q, s, m, pos, [c] + rest);
    assert ([c] + rest)[1..] == rest;
  }

  lemma StepInside(q: RawQuery, s: StoreState, m: Mode, pos: nat, c: Byte, rest: Bytes)
    requires s.parsedNr <= |s.parsed| && !m.Failed? && !TopLike(m) && !m.Bom? && c != CR && PairOf(m, c) == []
    ensures Drive(q, s, m, pos, [c] + rest) == Drive(q, s, Delta(m, c), pos + 1, rest)
  {
    hide Delta, Drive, PairOf;
    Step(q, s, m, pos, c, rest);
  }

  /** The store once a `[` at the start of the file has been read. */
  const OPENED: StoreState := EMPTY_STORE.(previousType := Section)

  /** `[s]` */
  const HEADER: Bytes := [91, 115, 93]

  const STEM: Stem := Stem([115, 46], true)

  lemma HeaderScanned(rest: Bytes)
    ensures Scan(Q, HEADER + rest) == Drive(Q, OPENED, Top(STEM, false), 3, rest)
  {
    hide Drive;
    var r1, r2 := [93] + rest, [115, 93] + rest;
    assert HEADER + rest == [91] + r2 && r2 == [115] + r1;
    Step(Q, EMPTY_STORE, INIT, 0, 91, r2);
    StepInside(Q, OPENED, BaseVar([]), 1, 115, r1);
    StepInside(Q, OPENED, BaseVar([115]), 2, 93, rest);
    assert [] + [Lower(115)] == [115] && [115] + [DOT] == [115, 46];
  }

  /** The store once the header has been closed at a line end. */
  const CLOSED: StoreState :=
    StoreState([Parsed(0, 3, Section, true)], 1, [0], 0, true, true, true, false, Whitespace, 3)

  lemma LineScanned(rest: Bytes)
    ensures Scan(Q, HEADER + ([10] + rest)) == Drive(Q, CLOSED, Top(STEM, false), 4, rest)
  {
    hide Drive;
    HeaderScanned([10] + rest);
    Step(Q, OPENED, Top(STEM, false), 3, 10, rest);
    assert DoEvent(Q, OPENED, Whitespace, 3, STEM) == CLOSED by {
      KeyIs();
      hide RawQuery.InSection;
      assert [0][0 := 0] == [0];
    }
  }

  lemma WalkStep(m: Mode, c: Byte, rest: Bytes)
    requires c != CR
    ensures Walk(m, [c] + rest) == Walk(Delta(m, c), rest)
  {
    hide Delta;
    assert ([c] + rest)[1..] == rest;
  }

  lemma ToTopStep(m: Mode, c: Byte, rest: Bytes)
    requires !TopLike(m) && !m.Failed? && c != CR && PairOf(m, c) == []
    ensures var t := ToTop(Delta(m, c), rest); ToTop(m, [c] + rest) == Item(t.mode, 1 + t.len, t.pairs)
  {
    hide Delta, PairOf;
    assert ([c] + rest)[1..] == rest;
    var t := ToTop(Delta(m, c), rest);
    assert [] + t.pairs == t.pairs;
  }

  lemma HeaderWalked(rest: Bytes)
    ensures Walk(INIT, HEADER + rest) == Walk(Top(STEM, false), rest)
    ensures ItemAt(HEADER + rest, 0) == Item(Top(STEM, false), 2, [])
  {
    hide Walk, ToTop;
    var r1, r2 := [93] + rest, [115, 93] + rest;
    assert HEADER + rest == [91] + r2 && r2 == [115] + r1 && ([91] + r2)[1..] == r2 && ([91] + r2)[..0] == [];
    WalkStep(INIT, 91, r2);
    WalkStep(BaseVar([]), 115, r1);
    WalkStep(BaseVar([115]), 93, rest);
    assert [] + [Lower(115)] == [115] && [115] + [DOT] == [115, 46];
    WalkNothing(INIT);
    ToTopStep(BaseVar([]), 115, r1);
    ToTopStep(BaseVar([115]), 93, rest);
    ToTopDone(Top(STEM, false), rest);
  }

  // ---- a second set ------------------------------------------------------------------------------

  /** `[s]`, a line end, and an empty line that ends in CR LF */
  const CRLF_TEXT: Bytes := HEADER + ([10] + [13, 10])

  const CRLF_STORE: StoreState :=
    CLOSED.(parsed := [Parsed(0, 3, Section, true), Parsed(3, 6, Whitespace, false)], parsedNr := 2,
            previousType := Eof, previousOffset := 6)

  lemma CrLfScanned()
    ensures Scan(Q, CRLF_TEXT) == Some(CRLF_STORE)
  {
    hide Drive;
    LineScanned([13, 10]);
    var m := Top(STEM, false);
    DriveTop(Q, CLOSED, m, 4, [13, 10]);
    assert CharLen([13, 10]) == 2 && CharAt([13, 10]) == LF && [13, 10][2..] == [];
    DriveTop(Q, CLOSED, m, 6, []);
    assert [Parsed(0, 3, Section, true)] + [Parsed(3, 6, Whitespace, false)] == CRLF_STORE.parsed;
  }

  lemma CrLfPlace()
    ensures Usable(Placed(CRLF_STORE), CRLF_TEXT) && InsertAt(CRLF_STORE, CRLF_TEXT) == 4 && AtCrLf(CRLF_TEXT, 4)
    ensures InsertStem(CRLF_STORE, CRLF_TEXT, []) == STEM && CRLF_TEXT != BOM && |CRLF_TEXT| == 6
  {
    hide ItemAt, Walk;
    HeaderWalked([10] + [13, 10]);
    assert CRLF_TEXT[3] == 10 && CRLF_TEXT[4] == 13 && CRLF_TEXT[5] == 10 && CRLF_TEXT[2] == 93;
  }

  /** In this file a second set of `s.k` to `v` writes other bytes than the first. */
  lemma SecondSetDiffers() returns (s2: StoreState)
    ensures Scan(Q, CRLF_TEXT) == Some(CRLF_STORE) && Usable(Placed(CRLF_STORE), CRLF_TEXT)
    ensures var out := Edited(CRLF_STORE, CRLF_TEXT, SK, 1, Some(V), None);
      Scan(Q, out) == Some(s2) && Usable(Placed(s2), out) && Edited(s2, out, SK, 1, Some(V), None) != out
  {
    hide *;
    KeyIs();
    QueryIs();
    CrLfScanned();
    CrLfPlace();
    StoreIs(CRLF_STORE, CRLF_TEXT);
    OneCut(CRLF_STORE, CRLF_TEXT);
    RecognizedHere(CRLF_STORE, CRLF_TEXT);
    s2 := SetTwice(Q, SK, CRLF_TEXT, CRLF_STORE, V, None);
  }

  lemma QueryIs()
    ensures Q.key == SK && Q.baselen == 1 && Q.matcher == Any && Q.key[..2] == [115, 46] && CommentOk(None) && 1 < |SK|
  {
  }

  lemma StoreIs(s: StoreState, text: Bytes)
    requires s == CRLF_STORE || s == OPEN_STORE
    ensures !s.keySeen && s.seenNr == 0 && s.sectionSeen
  {
  }

  lemma RecognizedHere(s: StoreState, text: Bytes)
    requires Usable(Placed(s), text) && !s.keySeen && s.seenNr == 0 && s.sectionSeen
    requires text != BOM && InsertAt(s, text) < |text| && InsertStem(s, text, []) == STEM
    ensures Recognized(Q, text, s)
  {
    hide InsertAt, InsertStem, Usable;
    QueryIs();
  }

  // ---- a value left open ---------------------------------------------------------------------------

  /** `[s]`, then `b=\` with no line end */
  const OPEN_TEXT: Bytes := HEADER + ([10] + [98, 61, 92])

  const OPEN_STORE: StoreState :=
    CLOSED.(parsed := [Parsed(0, 3, Section, true), Parsed(3, 4, Whitespace, false), Parsed(4, 7, Entry, false)],
            parsedNr := 3, seen := [2], previousType := Eof, previousOffset := 7)

  /** `s.b` */
  const SB: Bytes := [115, 46, 98]

  const IN_ENTRY: StoreState :=
    CLOSED.(parsed := [Parsed(0, 3, Section, true), Parsed(3, 4, Whitespace, false)], parsedNr := 2,
            previousType := Entry, previousOffset := 4)

  lemma OpenScanned()
    ensures Scan(Q, OPEN_TEXT) == Some(OPEN_STORE)
  {
    hide Drive, Feed;
    LineScanned([98, 61, 92]);
    assert [98, 61, 92] == [98] + [61, 92];
    Step(Q, CLOSED, Top(STEM, false), 4, 98, [61, 92]);
    OpenName();
    OpenTail();
  }

  lemma OpenName()
    ensures Feed(Q, CLOSED, Top(STEM, false), 5, 98) == IN_ENTRY && Delta(Top(STEM, false), 98) == Name(STEM, SB)
  {
    assert STEM.name + [Lower(98)] == SB;
    assert [Parsed(0, 3, Section, true)] + [Parsed(3, 4, Whitespace, false)] == IN_ENTRY.parsed;
  }

  lemma OpenTail()
    ensures Drive(Q, IN_ENTRY, Name(STEM, SB), 5, [61, 92]) == Some(OPEN_STORE)
  {
    hide Drive;
    assert [61, 92] == [61] + [92] && [92] == [92] + [];
    StepInside(Q, IN_ENTRY, Name(STEM, SB), 5, 61, [92]);
    StepInside(Q, IN_ENTRY, Value(STEM, SB, false, false, 0, []), 6, 92, []);
    OpenEnds();
  }

  lemma OpenEnds()
    ensures Drive(Q, IN_ENTRY, ValueEscape(STEM, SB, false, []), 7, []) == Some(OPEN_STORE)
  {
    hide Drive;
    var p, s := Pair(SB, Some([])), IN_ENTRY.(seen := [2]);
    ItemChar(Q, IN_ENTRY, ValueEscape(STEM, SB, false, []), 7, [], LF, 0);
    ItemChar(Q, IN_ENTRY, Value(STEM, SB, false, false, 0, []), 7, [], LF, 0);
    assert OnPairs(Q, IN_ENTRY, [p]) == s by {
      assert [p][1..] == [] && SB[2] != SK[2] && [0][0 := 2] == [2];
    }
    DriveTop(Q, s, Top(STEM, false), 7, []);
    assert IN_ENTRY.parsed + [Parsed(4, 7, Entry, false)] == OPEN_STORE.parsed;
  }

  lemma OpenWalked()
    ensures |OPEN_TEXT| == 7 && Walk(INIT, OPEN_TEXT) == ValueEscape(STEM, SB, false, [])
  {
    hide Walk;
    var m := Top(STEM, false);
    HeaderWalked([10] + [98, 61, 92]);
    WalkStep(m, 10, [98, 61, 92]);
    assert [98, 61, 92] == [98] + [61, 92] && [61, 92] == [61] + [92] && [92] == [92] + [];
    assert STEM.name + [Lower(98)] == SB;
    WalkStep(m, 98, [61, 92]);
    WalkStep(Name(STEM, SB), 61, [92]);
    WalkStep(Value(STEM, SB, false, false, 0, []), 92, []);
    WalkNothing(ValueEscape(STEM, SB, false, []));
  }

  lemma OpenPlace()
    ensures Usable(Placed(OPEN_STORE), OPEN_TEXT)
    ensures InsertAt(OPEN_STORE, OPEN_TEXT) == |OPEN_TEXT| == 7 && Dangling(OPEN_TEXT)
  {
    hide Walk;
    OpenWalked();
    assert OPEN_TEXT[..7] == OPEN_TEXT;
  }

  /** The line put behind this file goes on its last value: what was in it is not all read back. */
  lemma OpenValueSwallows(v: Bytes)
    ensures Misread(Q, SK, OPEN_TEXT, OPEN_STORE, v)
    ensures var es := Entries(Edited(OPEN_STORE, OPEN_TEXT, SK, 1, Some(v), None));
      es.None? || !(Entries(OPEN_TEXT).value <= es.value)
  {
    hide *;
    KeyIs();
    QueryIs();
    OpenScanned();
    OpenPlace();
    StoreIs(OPEN_STORE, OPEN_TEXT);
    ScanParses(Q, OPEN_TEXT);
    DanglingFails(Q, SK, OPEN_TEXT, OPEN_STORE, v, None);
    OpenUnfaithful(Q, OPEN_TEXT, OPEN_STORE, v);
    NotFaithfulMisread(Q, SK, OPEN_TEXT, OPEN_STORE, v);
    MisreadIs(Q, SK, OPEN_TEXT, OPEN_STORE, v);
  }

  lemma OpenUnfaithful(q: Query, text: Bytes, s: StoreState, v: Bytes)
    requires Usable(Placed(s), text) && !s.keySeen && s.seenNr == 0 && InsertAt(s, text) == |text| && Dangling(text)
    ensures !Faithful(q, text, s, v)
  {
    hide InsertStem, InsertAt, Usable, Dangling;
  }

  lemma MisreadIs(q: Query, key: Bytes, text: Bytes, s: StoreState, v: Bytes)
    requires Misread(q, key, text, s, v)
    ensures Usable(Placed(s), text) && Entries(text).Some? && q.baselen < |key|
  {
    hide Usable, Entries, Edited, Intended;
  }

  // ---- a byte order mark alone ------------------------------------------------------------------------

  /** The mark parses, and is no longer a mark behind what a set writes. */
  lemma MarkMoves(v: Bytes)
    ensures Scan(Q, BOM).Some? && Misread(Q, SK, BOM, Scan(Q, BOM).value, v)
    ensures Usable(Placed(Scan(Q, BOM).value), BOM) && Entries(BOM) == Some([])
    ensures 1 < |SK| && Entries(Edited(Scan(Q, BOM).value, BOM, SK, 1, Some(v), None)) == None
  {
    hide *;
    MarkParses();
    ScanParses(Q, BOM);
    var s := Scan(Q, BOM).value;
    KeyIs();
    QueryIs();
    BomFails(Q, SK, s, v, None);
    ScanGood(Q, BOM);
    FreshFacts(Q, BOM, s);
    MarkUnfaithful(Q, s, v);
    NotFaithfulMisread(Q, SK, BOM, s, v);
  }

  lemma MarkUnfaithful(q: Query, s: StoreState, v: Bytes)
    requires Usable(Placed(s), BOM) && !s.keySeen && s.seenNr == 0
    ensures !Faithful(q, BOM, s, v)
  {
    hide InsertStem, InsertAt, Usable;
  }

  lemma MarkParses()
    ensures Entries(BOM) == Some([])
  {
    hide Walk, Pairs;
    BomModes();
    BomPairs();
    assert BOM[..3] == BOM && Pairs(INIT, BOM) + [] == Pairs(INIT, BOM);
  }

  lemma BomPairs()
    ensures Pairs(INIT, BOM) == []
  {
    assert BOM == [0xEF] + ([0xBB] + [0xBF]);
    WalkOne(Bom(2), 0xBF);
    assert BOM[1..] == [0xBB, 0xBF] && BOM[1..][1..] == [0xBF] && BOM[1..][1..][1..] == [];
  }

  // ---- a header in the old spelling ----------------------------------------------------------------------

  /** `s.T.k` */
  const STK: Bytes := [115, 46, 84, 46, 107]

  const OLD_QUERY: RawQuery := Query(STK, 3, Any, false)

  /** `[s.T]` */
  const OLD_TEXT: Bytes := [91, 115, 46, 84, 93]

  /** It reads as `s.t.` */
  const OLD_STEM: Stem := Stem([115, 46, 116, 46], true)

  const OLD_STORE: StoreState := StoreState([Parsed(0, 5, Section, true)], 1, [0], 0, true, true, true, false, Eof, 5)

  lemma OldKeyIs()
    ensures ValidQuery(OLD_QUERY) && WellFormedKey(STK, 3) && Canonical(STK, 3) == STK && OLD_QUERY.InSection(OLD_STEM)
  {
    assert FirstDot(STK) == 1 by { assert STK[1..] == [46, 84, 46, 107] && STK[0] != DOT; }
    assert Canonical(STK, 3) == STK;
    assert LowerAll(OLD_STEM.name[..3]) == LowerAll(STK[..3]);
  }

  lemma OldName()
    ensures Delta(BaseVar([]), 115) == BaseVar([115]) && Delta(BaseVar([115]), 46) == BaseVar([115, 46])
    ensures Delta(BaseVar([115, 46]), 84) == BaseVar([115, 46, 116])
    ensures Delta(BaseVar([115, 46, 116]), 93) == Top(OLD_STEM, false)
    ensures forall name, c: Byte :: PairOf(BaseVar(name), c) == []
  {
    assert [] + [Lower(115)] == [115] && [115] + [Lower(46)] == [115, 46] && [115, 46] + [Lower(84)] == [115, 46, 116];
    assert [115, 46, 116] + [DOT] == OLD_STEM.name;
  }

  lemma OldBytes()
    ensures OLD_TEXT == [91] + [115, 46, 84, 93]
    ensures [115, 46, 84, 93] == [115] + [46, 84, 93] && [46, 84, 93] == [46] + [84, 93]
    ensures [84, 93] == [84] + [93] && [93] == [93] + [] && OLD_TEXT[0] == 91
    ensures OLD_TEXT[1..] == [115, 46, 84, 93] && OLD_TEXT[..0] == []
  {
  }

  lemma Opens(q: RawQuery)
    ensures Feed(q, EMPTY_STORE, INIT, 1, 91) == OPENED && Delta(INIT, 91) == BaseVar([])
    ensures EMPTY_STORE.parsedNr <= |EMPTY_STORE.parsed|
    ensures OPENED.parsedNr <= |OPENED.parsed| && !INIT.Failed?
  {
  }

  lemma OldScanned()
    ensures Scan(OLD_QUERY, OLD_TEXT) == Some(OLD_STORE)
  {
    hide Drive, Feed, Delta, PairOf, DoEvent;
    var q := OLD_QUERY;
    OldName();
    OldBytes();
    Opens(q);
    Step(q, EMPTY_STORE, INIT, 0, 91, [115, 46, 84, 93]);
    StepInside(q, OPENED, BaseVar([]), 1, 115, [46, 84, 93]);
    StepInside(q, OPENED, BaseVar([115]), 2, 46, [84, 93]);
    StepInside(q, OPENED, BaseVar([115, 46]), 3, 84, [93]);
    StepInside(q, OPENED, BaseVar([115, 46, 116]), 4, 93, []);
    DriveTop(q, OPENED, Top(OLD_STEM, false), 5, []);
    OldCloses();
  }

  lemma OldCloses()
    ensures DoEvent(OLD_QUERY, OPENED, Eof, 5, OLD_STEM) == OLD_STORE
  {
    hide RawQuery.InSection;
    OldKeyIs();
    assert [0][0 := 0] == [0];
  }

  lemma OldItem()
    ensures |OLD_TEXT| == 5 && ItemAt(OLD_TEXT, 0) == Item(Top(OLD_STEM, false), 4, [])
  {
    hide Walk, ToTop, Delta, PairOf;
    OldName();
    OldBytes();
    Opens(OLD_QUERY);
    WalkNothing(INIT);
    ToTopStep(BaseVar([]), 115, [46, 84, 93]);
    ToTopStep(BaseVar([115]), 46, [84, 93]);
    ToTopStep(BaseVar([115, 46]), 84, [93]);
    ToTopStep(BaseVar([115, 46, 116]), 93, []);
    ToTopDone(Top(OLD_STEM, false), []);
  }

  lemma OldPlace()
    ensures Usable(Placed(OLD_STORE), OLD_TEXT) && !OLD_STORE.keySeen && OLD_STORE.seenNr == 0 && OLD_STORE.sectionSeen
    ensures OLD_QUERY.key == STK && OLD_QUERY.baselen == 3 && |STK| == 5
    ensures InsertStem(OLD_STORE, OLD_TEXT, []) == OLD_STEM && OLD_STEM.name != OLD_QUERY.key[..4]
  {
    hide ItemAt;
    OldItem();
    assert OLD_STEM.name[2] != OLD_QUERY.key[..4][2];
  }

  /** The header is taken for the key's section, and the new entry reads back under another key. */
  lemma OldHeaderMisleads(v: Bytes)
    ensures Misread(OLD_QUERY, STK, OLD_TEXT, OLD_STORE, v)
  {
    hide *;
    OldKeyIs();
    OldScanned();
    OldPlace();
    OldUnfaithful(OLD_QUERY, OLD_TEXT, OLD_STORE, v);
    NotFaithfulMisread(OLD_QUERY, STK, OLD_TEXT, OLD_STORE, v);
  }

  lemma OldUnfaithful(q: Query, text: Bytes, s: StoreState, v: Bytes)
    requires Usable(Placed(s), text) && !s.keySeen && s.seenNr == 0 && s.sectionSeen && q.baselen + 1 <= |q.key|
    requires InsertStem(s, text, []).name != q.key[..q.baselen + 1]
    ensures !Faithful(q, text, s, v)
  {
    hide InsertStem, InsertAt, Usable;
  }

  // ---- a value edged by a vertical tab ----------------------------------------------------------------------

  lemma VerticalTabIsLost()
    ensures ReadBack([VT]) == [] && !Survives([VT])
  {
    assert [VT][1..] == [] && [VT][0] == VT;
    assert RawRead(0, [], [VT]) == RawRead(0, [], []) == (0, []);
    ReadBackExact([VT]);
  }

  /** A lone vertical tab is not read back, from whatever file. */
  lemma VerticalTabMisread(q: Query, key: Bytes, text: Bytes, s: StoreState)
    requires Scan(q, text) == Some(s) && WellFormedKey(key, q.baselen) && q.key == Canonical(key, q.baselen)
    ensures Misread(q, key, text, s, [VT])
  {
    hide Scan, Usable, Survives, Canonical, InsertAt, InsertStem, Dangling;
    VerticalTabIsLost();
    NotFaithfulMisread(q, key, text, s, [VT]);
  }

  // ---- names and copies of sections -----------------------------------------------------------------------

  /** `a]` is not recognised in the header written for it. */
  lemma BracketUnseen()
    ensures R.NameMatch(SectionLine([97, RBRACKET]), [97, RBRACKET]) == 0
  {
    R.OwnMatch([97, RBRACKET]);
    assert [97, RBRACKET][1] == RBRACKET;
  }

  /** `[a]` with no line end */
  const BARE: Bytes := [91, 97, 93]

  lemma BareLine()
    ensures S.Lines(BARE) == [BARE] && S.IsHeader(BARE) && !S.Ended(BARE)
    ensures S.Hit(BARE, [97]) && !S.Hit(BARE, [98])
  {
    assert BARE[S.LineEnd(BARE)..] == [] && BARE[..3] == BARE && BARE[0..] == BARE;
    assert R.MatchFrom(BARE, 1, [97], 0, false) == R.MatchFrom(BARE, 2, [97], 1, false) == R.Verdict(BARE, 2, [97], 1);
    assert R.MatchFrom(BARE, 1, [98], 0, false) == R.Verdict(BARE, 1, [98], 1) == 0;
  }

  lemma BareFacts()
    ensures S.Renamable([98]) && S.Short([BARE]) && S.Hits([BARE], [97]) == 1 && S.Hits([BARE], [98]) == 0
    ensures !S.CopyApart([BARE], [97])
  {
    hide S.Hit, S.IsHeader, S.Ended;
    BareLine();
    var ls: seq<Bytes> := [BARE];
    assert ls[1..] == [];
    assert S.Within(ls, false, [97]) == S.Within(ls[1..], true, [97]) == S.Within([], true, [97]) == true;
    assert !S.Ended(ls[|ls| - 1]);
  }

  /** Copying `a` to `b` in this file and removing `b` again does not give it back: the header was glued to `[a]`. */
  lemma GluedCopyStays()
    ensures var copied := S.Outcome(BARE, [97], Some([98]), true);
      && copied == S.Done(BARE + SectionLine([98]), 1)
      && S.Outcome(copied.out, [98], None, false) != S.Done(BARE, 1)
  {
    hide *;
    BareLine();
    BareFacts();
    S.CopyOutcome(BARE, [97], [98]);
    OneCopied(BARE, [97], [98]);
    S.CopyThenRemove(BARE, [97], [98]);
  }

  /** The copy of a section that is its header's line alone. */
  lemma OneCopied(l: Bytes, a: Bytes, b: Bytes)
    requires S.Hit(l, a)
    ensures S.Join(S.Body([l], [], a, b) + S.Pending([l], [], a, b)) == l + SectionLine(b)
  {
    hide SectionLine, S.Hit, S.IsHeader, S.Join, S.Body, S.Pending;
    S.HitIsHeader(l, a);
    var ls: seq<Bytes> := [l];
    assert ls[1..] == [];
    var none: seq<Bytes> := [];
    S.BodyNext(ls, none, a, b);
    assert S.NextPend(l, none, a, b) == [SectionLine(b)] && S.Sent(l, none) == none + [l];
    S.BodyNext(none, [SectionLine(b)], a, b);
    assert S.Body(ls, none, a, b) == [l] && S.Pending(ls, none, a, b) == [SectionLine(b)];
    S.JoinConcat([l], [SectionLine(b)]);
    S.JoinOne(l);
    S.JoinOne(SectionLine(b));
  }

  // ---- where lines and items part ---------------------------------------------------------------------------

  lemma EntriesStep(m: Mode, c: Byte, rest: Bytes)
    requires c != CR && PairOf(m, c) == []
    ensures EntriesFrom(m, [c] + rest) == EntriesFrom(Delta(m, c), rest)
  {
    hide Delta, PairOf, EntriesFrom;
    EntriesUnfold(m, [c] + rest);
    assert ([c] + rest)[1..] == rest;
    PrefixedNothing(EntriesFrom(Delta(m, c), rest));
  }

  /** `s.k` with `acc` read so far */
  function InValue(acc: Bytes): Mode { Value(STEM, SK, false, false, 0, acc) }

  /** `[s]`, then `k=\`, then what is given */
  const CONTINUED: Bytes := HEADER + [10] + [107, 61, 92, 10]

  lemma ContinuedRead(rest: Bytes)
    ensures Entries(CONTINUED + rest) == EntriesFrom(InValue([]), rest)
  {
    hide EntriesFrom, Delta;
    var r1: Bytes := [10] + rest;
    var r2: Bytes := [92] + r1;
    var r3: Bytes := [61] + r2;
    var r4: Bytes := [107] + r3;
    var r5: Bytes := [10] + r4;
    var r6: Bytes := [93] + r5;
    var r7: Bytes := [115] + r6;
    assert CONTINUED + rest == [91] + r7;
    ContinuedSteps();
    EntriesStep(INIT, 91, r7);
    EntriesStep(BaseVar([]), 115, r6);
    EntriesStep(BaseVar([115]), 93, r5);
    EntriesStep(Top(STEM, false), 10, r4);
    EntriesStep(Top(STEM, false), 107, r3);
    EntriesStep(Name(STEM, SK), 61, r2);
    EntriesStep(InValue([]), 92, r1);
    EntriesStep(ValueEscape(STEM, SK, false, []), 10, rest);
  }

  lemma ContinuedSteps()
    ensures Delta(INIT, 91) == BaseVar([]) && Delta(BaseVar([]), 115) == BaseVar([115])
    ensures Delta(BaseVar([115]), 93) == Top(STEM, false)
    ensures Delta(Top(STEM, false), 10) == Top(STEM, false) && Delta(Top(STEM, false), 107) == Name(STEM, SK)
    ensures Delta(Name(STEM, SK), 61) == InValue([]) && Delta(InValue([]), 92) == ValueEscape(STEM, SK, false, [])
    ensures Delta(ValueEscape(STEM, SK, false, []), 10) == InValue([])
  {
    assert [] + [Lower(115)] == [115] && [115] + [DOT] == STEM.name && STEM.name + [Lower(107)] == SK;
  }

  /** `[a]` and its line end */
  const A_LINE: Bytes := [91, 97, 93, 10]

  const FIRST: Bytes := HEADER + [10]
  const SECOND: Bytes := [107, 61, 92, 10]

  lemma ContinuedLines()
    ensures S.Lines(CONTINUED + A_LINE) == [FIRST] + ([SECOND] + ([A_LINE] + []))
    ensures S.Outside(S.Lines(CONTINUED + A_LINE), false, [97]) == [FIRST] + ([SECOND] + [])
    ensures S.Join([FIRST] + ([SECOND] + [])) == CONTINUED
  {
    hide *;
    LinesAre();
    LinesHit();
    var none: seq<Bytes> := [];
    S.JoinCons(A_LINE, none);
    S.JoinCons(SECOND, none);
    S.JoinCons(SECOND, [A_LINE] + none);
    S.JoinCons(FIRST, [SECOND] + ([A_LINE] + none));
    S.JoinCons(FIRST, [SECOND] + none);
    S.JoinNone();
    assert FIRST + (SECOND + []) == CONTINUED && FIRST + (SECOND + (A_LINE + [])) == CONTINUED + A_LINE;
    S.ApartNone();
    S.ApartCons(A_LINE, none);
    S.ApartCons(SECOND, [A_LINE] + none);
    S.ApartCons(FIRST, [SECOND] + ([A_LINE] + none));
    S.LinesJoin([FIRST] + ([SECOND] + ([A_LINE] + none)));
    WithinIs(FIRST, false);
    WithinIs(SECOND, false);
    WithinIs(A_LINE, false);
    S.OutsideCons(A_LINE, none, false, [97]);
    S.OutsideCons(A_LINE, none, true, [97]);
    S.OutsideCons(SECOND, [A_LINE] + none, false, [97]);
    S.OutsideCons(FIRST, [SECOND] + ([A_LINE] + none), false, [97]);
    assert [] + none == none;
  }

  lemma ContinuedShort()
    ensures S.Short([FIRST] + ([SECOND] + ([A_LINE] + [])))
  {
  }

  lemma WithinIs(l: Bytes, within: bool)
    ensures S.WithinNow(l, within, [97]) == if S.IsHeader(l) then S.Hit(l, [97]) else within
  {
    hide S.IsHeader, S.Hit;
  }

  lemma LinesAre()
    ensures CONTINUED == FIRST + SECOND && S.Ended(FIRST) && S.Ended(SECOND) && S.Ended(A_LINE)
    ensures S.OneLine(FIRST) && S.OneLine(SECOND) && S.OneLine(A_LINE)
  {
  }

  lemma LinesHit()
    ensures S.IsHeader(FIRST) && !S.Hit(FIRST, [97]) && !S.IsHeader(SECOND)
    ensures S.IsHeader(A_LINE) && S.Hit(A_LINE, [97])
  {
    var l1 := FIRST;
    assert l1[0..] == l1 && A_LINE[0..] == A_LINE;
    assert R.MatchFrom(l1, 1, [97], 0, false) == R.Verdict(l1, 1, [97], 1) == 0;
    assert R.MatchFrom(A_LINE, 1, [97], 0, false) ==
      R.MatchFrom(A_LINE, 2, [97], 1, false) == R.Verdict(A_LINE, 2, [97], 1);
  }

  /**
   A value that goes on into a line `[a]`: removing the sections of `a`, of which there are none, takes it from the
   value.
   */
  lemma ContinuedHeaderRemoved()
    ensures var text := CONTINUED + A_LINE;
      && Entries(text) == Some([Pair(SK, Some([91, 97, 93]))])
      && S.Outcome(text, [97], None, false).Done? && S.Outcome(text, [97], None, false).out == CONTINUED
      && Entries(CONTINUED) == Some([Pair(SK, Some([]))])
  {
    hide *;
    ContinuedLines();
    ContinuedShort();
    S.RemoveOutcome(CONTINUED + A_LINE, [97]);
    ContinuedRead(A_LINE);
    ContinuedRead([]);
    assert CONTINUED + [] == CONTINUED;
    NothingMore();
    GoesOn();
  }

  lemma ValueByte(acc: Bytes, c: Byte)
    requires c == 91 || c == 97 || c == 93
    ensures Delta(InValue(acc), c) == InValue(acc + [c]) && PairOf(InValue(acc), c) == [] && c != CR
  {
  }

  lemma ValueEnd(acc: Bytes)
    ensures Delta(InValue(acc), 10) == Top(STEM, false) && PairOf(InValue(acc), 10) == [Pair(SK, Some(acc))]
  {
  }

  lemma NothingMore()
    ensures EntriesFrom(InValue([]), []) == Some([Pair(SK, Some([]))])
  {
    WalkNothing(InValue([]));
    assert [] + [Pair(SK, Some([]))] == [Pair(SK, Some([]))];
  }

  lemma GoesOn()
    ensures EntriesFrom(InValue([]), A_LINE) == Some([Pair(SK, Some([91, 97, 93]))])
  {
    hide *;
    ALineIs();
    ValueByte([], 91);
    ValueByte([91], 97);
    ValueByte([91, 97], 93);
    ValueEnd([91, 97, 93]);
    assert [] + [91] == [91] && [91] + [97] == [91, 97] && [91, 97] + [93] == [91, 97, 93];
    EntriesStep(InValue([]), 91, [97] + ([93] + [10]));
    EntriesStep(InValue([91]), 97, [93] + [10]);
    EntriesStep(InValue([91, 97]), 93, [10]);
    LastByte();
    TopQuiet(STEM);
    NothingLeft(Top(STEM, false));
  }

  lemma ALineIs()
    ensures A_LINE == [91] + ([97] + ([93] + [10]))
  {
  }

  lemma LastByte()
    ensures EntriesFrom(Top(STEM, false), []) == Some([]) ==>
      EntriesFrom(InValue([91, 97, 93]), [10]) == Some([Pair(SK, Some([91, 97, 93]))])
  {
    hide EntriesFrom, Delta, PairOf;
    ValueEnd([91, 97, 93]);
    EntriesUnfold(InValue([91, 97, 93]), [10]);
    assert [10][1..] == [] && [Pair(SK, Some([91, 97, 93]))] + [] == [Pair(SK, Some([91, 97, 93]))];
  }
}

/**
 What the editor takes for its own, said on texts: which keys it accepts, which headers open a
 key's section, which entries a pattern picks, and which header lines are taken for a section
 that is renamed, copied or removed.
 */
module ConfigMatching {
  import opened Bytes
  import opened ConfigGrammar
  import opened ConfigKey
  import opened ConfigScan
  import opened ConfigText
  import opened Optional
  import M = ConfigMeaning
  import E = ConfigEdit
  import R = ConfigRename

  // ---- keys -----------------------------------------------------------------------------------

  /** A section, then a dot or a subsection between dots, then a variable's name. */
  predicate IsKey(section: Bytes, middle: Bytes, name: Bytes) {
    && (forall i :: 0 <= i < |section| ==> NameByte(section[i]))
    && middle != [] && middle[0] == 46 && middle[|middle| - 1] == 46 && 10 !in middle
    && NameOk(name) && |section| + |middle| > 1
  }

  lemma FirstDotIs(section: Bytes, middle: Bytes, name: Bytes)
    requires IsKey(section, middle, name)
    ensures FirstDot(section + middle + name) == |section|
  {
    hide FirstDot;
    var key, d := section + middle + name, FirstDot(section + middle + name);
    assert key[|section|] == middle[0];
    assert forall i :: 0 <= i < |section| ==> key[i] == section[i];
  }

  lemma SmallIs(s: Bytes)
    ensures |SmallAll(s)| == |s| && forall i :: 0 <= i < |s| ==> SmallAll(s)[i] == Small(s[i]) == Lower(s[i])
    ensures SmallAll(s) == LowerAll(s)
  {
    if s != [] { SmallIs(s[1..]); }
  }

  /** What may stand where in a key. */
  lemma ByteIs(key: Bytes, b: nat, i: nat)
    requires i < |key|
    ensures ByteOk(key, b, i) <==>
      if i < FirstDot(key) || i > b then NameByte(key[i]) && (i == b + 1 ==> Alphabetic(key[i])) else key[i] != 10
  {
    hide FirstDot;
  }

  /** The bytes of a key by where they stand. */
  lemma KeyBytes(section: Bytes, middle: Bytes, name: Bytes)
    requires IsKey(section, middle, name)
    ensures var key, d, b := section + middle + name, |section|, |section| + |middle| - 1;
      && key[b] == 46 && 0 < b && b + 1 < |key| && (forall i :: b < i < |key| ==> key[i] != 46)
      && (forall i :: 0 <= i < d || b < i < |key| ==> NameByte(key[i])) && Alphabetic(key[b + 1])
      && (forall i :: d <= i <= b ==> key[i] != 10)
  {
    var key, d, b := section + middle + name, |section|, |section| + |middle| - 1;
    assert forall i :: 0 <= i < d ==> key[i] == section[i];
    assert forall i :: d <= i <= b ==> key[i] == middle[i - d] && middle[i - d] in middle;
    assert forall i :: b < i < |key| ==> key[i] == name[i - b - 1];
  }

  /** Such a key is accepted, and folds its section and its name alone. */
  lemma KeyAccepted(section: Bytes, middle: Bytes, name: Bytes)
    requires IsKey(section, middle, name)
    ensures var key, b := section + middle + name, |section| + |middle| - 1;
      WellFormedKey(key, b) && Canonical(key, b) == SmallAll(section) + middle + SmallAll(name)
  {
    hide FirstDot, IsKey, ByteOk, NameByte, Alphabetic, SmallAll;
    var key, d, b := section + middle + name, |section|, |section| + |middle| - 1;
    FirstDotIs(section, middle, name);
    KeyBytes(section, middle, name);
    forall i | 0 <= i < |key| ensures ByteOk(key, b, i) { ByteIs(key, b, i); }
    Folds(section, middle, name);
  }

  lemma Folds(section: Bytes, middle: Bytes, name: Bytes)
    requires FirstDot(section + middle + name) == |section| && middle != []
    ensures Canonical(section + middle + name, |section| + |middle| - 1) == SmallAll(section) + middle + SmallAll(name)
  {
    hide FirstDot, SmallAll, Lower, Small, LowerAll;
    SmallIs(section);
    SmallIs(name);
    var key, a, z := section + middle + name, SmallAll(section), SmallAll(name);
    var c := Canonical(key, |section| + |middle| - 1);
    forall i | 0 <= i < |key|
      ensures c[i] == (a + middle + z)[i]
    {
      if i < |section| {
        assert key[i] == section[i];
      } else if i < |section| + |middle| {
        assert key[i] == middle[i - |section|];
      } else {
        assert key[i] == name[i - |section| - |middle|];
      }
    }
    assert |c| == |a + middle + z|;
  }

  /** No other key is. */
  lemma KeyIs(key: Bytes, b: nat) returns (section: Bytes, middle: Bytes, name: Bytes)
    requires WellFormedKey(key, b)
    ensures key == section + middle + name && IsKey(section, middle, name) && b == |section| + |middle| - 1
  {
    hide FirstDot, ByteOk, NameByte, Alphabetic;
    var d := FirstDot(key);
    assert d <= b;
    section, middle, name := key[..d], key[d..b + 1], key[b + 1..];
    forall i | 0 <= i < |key|
      ensures i < d || i > b ==> NameByte(key[i]) && (i == b + 1 ==> Alphabetic(key[i]))
      ensures d <= i <= b ==> key[i] != 10
    {
      ByteIs(key, b, i);
      assert ByteOk(key, b, i);
    }
    assert forall i :: 0 <= i < |middle| ==> middle[i] == key[d + i];
    assert forall i :: 0 <= i < |name| ==> name[i] == key[b + 1 + i];
  }

  /** `key` is made of those, and they spell `canonical` folded. */
  predicate MadeOf(key: Bytes, canonical: Bytes, section: Bytes, middle: Bytes, name: Bytes) {
    && key == section + middle + name && IsKey(section, middle, name)
    && canonical == SmallAll(section) + middle + SmallAll(name)
  }

  /** The keys the parser accepts, and how it spells them. */
  lemma KeysAccepted(key: Bytes, canonical: Bytes)
    ensures (exists b :: WellFormedKey(key, b) && Canonical(key, b) == canonical) <==>
      exists section, middle, name :: MadeOf(key, canonical, section, middle, name)
  {
    hide WellFormedKey, Canonical, IsKey, SmallAll;
    if b :| WellFormedKey(key, b) && Canonical(key, b) == canonical {
      var section, middle, name := KeyIs(key, b);
      KeyAccepted(section, middle, name);
      assert MadeOf(key, canonical, section, middle, name);
    }
    if section, middle, name :| MadeOf(key, canonical, section, middle, name) {
      KeyAccepted(section, middle, name);
      NotNothing(section, middle, name);
      assert WellFormedKey(key, |section| + |middle| - 1);
    }
  }

  lemma NotNothing(section: Bytes, middle: Bytes, name: Bytes)
    ensures IsKey(section, middle, name) ==> |section| + |middle| > 1
  {
  }

  // ---- the key's section ------------------------------------------------------------------------

  /**
   A plain header opens the key's section exactly if it is its name, whatever the case of either; one
   with a subsection exactly if its name folds to the section and its subsection is the key's own,
   byte for byte.
   */
  lemma OwnHeaders(q: Query, st: Stem, name: Bytes, gap: Bytes, sub: seq<Piece>)
    ensures q.InSection(StemBehind(st, Header(name))) <==> SmallAll(name) == SmallAll(q.key[..q.baselen])
    ensures q.InSection(StemBehind(st, SubHeader(name, gap, sub))) <==>
      SmallAll(name) + [46] + SubMeant(sub) == q.key[..q.baselen]
  {
    hide SubMeant, SmallAll;
    var base := q.key[..q.baselen];
    SmallIs(name);
    SmallIs(base);
    SmallIs(SmallAll(name));
    var n := SmallAll(name);
    assert (n + [46])[..|n|] == n;
    assert forall i :: 0 <= i < |n| ==> LowerAll(n)[i] == n[i];
    assert LowerAll(n) == n;
    var m := n + [46] + SubMeant(sub);
    assert (m + [46])[..|m|] == m;
  }

  // ---- patterns -----------------------------------------------------------------------------------

  /** The entries a pattern leaves: those of other keys, and of the key those whose value it does not pick. */
  function LeftBy(es: seq<Pair>, key: Bytes, picks: Option<Bytes> -> bool): seq<Pair> {
    if es == [] then []
    else (if es[0].key == key && picks(es[0].value) then [] else [es[0]]) + LeftBy(es[1..], key, picks)
  }

  /** What each kind of pattern picks: a fixed value an entry that has it or none, an expression the values it hits, and
   a negated one all others and an entry without a value. */
  ghost predicate Picks(m: Matcher, picks: Option<Bytes> -> bool) {
    match m
    case Any => forall v :: picks(v)
    case Never => forall v :: !picks(v)
    case Fixed(want) => picks(None) && forall v :: picks(Some(v)) <==> v == want
    case Regex(hits, doNotMatch) =>
      (picks(None) <==> doNotMatch) && forall v :: picks(Some(v)) <==> if doNotMatch then !hits(v) else hits(v)
  }

  lemma {:induction false} LeftIsKept(q: Query, es: seq<Pair>, picks: Option<Bytes> -> bool)
    requires Picks(q.matcher, picks)
    ensures M.Keep(q, es) == LeftBy(es, q.key, picks)
  {
    if es != [] {
      var e := es[0];
      assert e.value == None || e.value == Some(e.value.value);
      LeftIsKept(q, es[1..], picks);
    }
  }

  /** An unset by a pattern leaves exactly the entries the pattern does not pick. */
  lemma UnsetByPattern(q: Query, text: Bytes, s: StoreState, key: Bytes, comment: Option<Bytes>,
      picks: Option<Bytes> -> bool)
    requires Scan(q, text) == Some(s) && s.keySeen && q.baselen < |key| && Picks(q.matcher, picks)
    ensures E.Usable(E.Placed(s), text) && Entries(text).Some?
    ensures Entries(E.Edited(s, text, key, q.baselen, None, comment)) ==
      Some(LeftBy(Entries(text).value, q.key, picks))
  {
    hide *;
    E.ScanUsable(q, text);
    M.ScanParses(q, text);
    M.UnsetMeaning(q, key, text, s, comment);
    LeftIsKept(q, Entries(text).value, picks);
  }

  // ---- header lines --------------------------------------------------------------------------------

  /** A subsection without NUL and `]`, at which the comparison stops. */
  predicate Comparable(sub: seq<Piece>) {
    forall i :: 0 <= i < |sub| ==> SubPieceOk(sub[i]) && sub[i].c != 0 && sub[i].c != 93
  }

  lemma SubPieceCompared(buf: Bytes, i: nat, p: Piece, y: Bytes, j: nat)
    requires SubPieceOk(p) && p.c != 0 && p.c != 93
    requires i + |PieceText(p)| <= |buf| && buf[i..i + |PieceText(p)|] == PieceText(p)
    ensures R.MatchFrom(buf, i, y, j, true) ==
      if R.At(y, j) == p.c then R.MatchFrom(buf, i + |PieceText(p)|, y, j + 1, true) else 0
  {
    hide R.SkipSpaces;
    assert buf[i] == PieceText(p)[0];
    if p.Escape? { assert buf[i + 1] == PieceText(p)[1]; }
  }

  lemma {:induction false} SubCompared(buf: Bytes, i: nat, sub: seq<Piece>, y: Bytes, j: nat)
    requires Comparable(sub) && i + |PiecesText(sub)| <= |buf| && buf[i..i + |PiecesText(sub)|] == PiecesText(sub)
    ensures R.MatchFrom(buf, i, y, j, true) ==
      if R.Spells(y, j, SubMeant(sub)) then
        R.MatchFrom(buf, i + |PiecesText(sub)|, y, j + |SubMeant(sub)|, true)
      else 0
    decreases |sub|
  {
    hide R.MatchFrom, R.Spells, R.At, SubPieceOk, PieceText, SubMeant;
    if sub == [] {
      NoneMeant();
      NothingSpelled(y, j);
    } else {
      var p, rest := sub[0], sub[1..];
      var t := PieceText(p);
      SliceOf(buf, i, t, PiecesText(rest));
      SubPieceCompared(buf, i, p, y, j);
      SubCompared(buf, i + |t|, rest, y, j + 1);
      SubMeantNext(sub);
      R.SpellsNext(y, j, SubMeant(sub));
    }
  }

  lemma SubMeantNext(sub: seq<Piece>)
    requires sub != [] && SubPieceOk(sub[0])
    ensures SubMeant(sub) != [] && SubMeant(sub)[0] == sub[0].c && SubMeant(sub)[1..] == SubMeant(sub[1..])
  {
  }

  lemma NoneMeant()
    ensures SubMeant([]) == []
  {
  }

  lemma NothingSpelled(y: Bytes, j: nat)
    ensures R.Spells(y, j, [])
  {
  }

  lemma SliceOf(buf: Bytes, i: nat, a: Bytes, b: Bytes)
    requires i + |a + b| <= |buf| && buf[i..i + |a + b|] == a + b
    ensures buf[i..i + |a|] == a && buf[i + |a|..i + |a| + |b|] == b
  {
    assert buf[i..i + |a + b|][..|a|] == buf[i..i + |a|];
    assert buf[i..i + |a + b|][|a|..] == buf[i + |a|..i + |a| + |b|];
  }

  /** The header takes its own bytes and the blanks and line ends behind them. */
  predicate TakesTo(buf: Bytes, h: nat, n: nat) {
    && h <= n <= |buf| && (forall i :: h <= i < n ==> LineBlank(buf[i]) || buf[i] == 10)
    && (n < |buf| ==> !LineBlank(buf[n]) && buf[n] != 10)
  }

  lemma SpacesAre(buf: Bytes, h: nat)
    requires h <= |buf|
    ensures TakesTo(buf, h, R.SkipSpaces(buf, h))
  {
    hide R.SkipSpaces;
  }

  lemma PlainName(name: Bytes)
    requires SectionOk(name)
    ensures R.PlainBytes(name) && NUL !in name
  {
  }

  /** What ends a plain header. */
  lemma BracketEnds(buf: Bytes, i: nat, y: Bytes, j: nat)
    requires i < |buf| && buf[i] == 93
    ensures R.MatchFrom(buf, i, y, j, false) == if R.At(y, j) == 0 then R.SkipSpaces(buf, i + 1) else 0
  {
    hide R.SkipSpaces;
  }

  /**
   A plain header is taken for a name exactly if it is that name, letter case and all; what C sees of the name
   counts.
   */
  lemma HeaderTaken(name: Bytes, tail: Bytes, y: Bytes)
    requires SectionOk(name)
    ensures var n := R.NameMatch([91] + name + [93] + tail, y);
      if R.CString(y) == name then TakesTo([91] + name + [93] + tail, |name| + 2, n) else n == 0
  {
    hide R.MatchFrom, R.SkipSpaces, R.Spells, R.At, R.CString, R.PlainBytes, SectionOk;
    var buf := [91] + name + [93] + tail;
    PlainName(name);
    assert buf[1..1 + |name|] == name && buf[1 + |name|] == 93;
    R.PlainRun(buf, 1, name, y, 0);
    BracketEnds(buf, 1 + |name|, y, |name|);
    SpacesAre(buf, |name| + 2);
    R.CStringSpells(name, y);
    Begins(buf, y);
  }

  lemma Begins(buf: Bytes, y: Bytes)
    requires buf != [] && buf[0] == 91
    ensures R.NameMatch(buf, y) == R.MatchFrom(buf, 1, y, 0, false)
  {
    hide R.MatchFrom;
  }

  /** The gap between a section's name and the quote. */
  lemma GapCompared(buf: Bytes, i: nat, gap: Bytes, y: Bytes, j: nat)
    requires HeaderGapOk(gap) && i + |gap| < |buf| && buf[i..i + |gap|] == gap && buf[i + |gap|] == 34
    ensures R.MatchFrom(buf, i, y, j, false) ==
      if R.At(y, j) == 46 then R.MatchFrom(buf, i + |gap| + 1, y, j + 1, true) else 0
  {
    hide R.SkipSpaces;
    var k := R.SkipSpaces(buf, i + 1);
    assert forall m :: i <= m < i + |gap| ==> buf[m] == gap[m - i];
    assert k == i + |gap|;
  }

  /** The quote and the bracket behind a subsection. */
  lemma QuoteEnds(buf: Bytes, i: nat, y: Bytes, j: nat)
    requires i + 1 < |buf| && buf[i] == 34 && buf[i + 1] == 93
    ensures R.MatchFrom(buf, i, y, j, true) == if R.At(y, j) == 0 then R.SkipSpaces(buf, i + 2) else 0
  {
    hide R.SkipSpaces;
    assert R.SkipSpaces(buf, i + 1) == i + 1;
  }

  /**
   A header with a subsection is taken for a name exactly if it is the section's name, letter case and
   all, a dot and the subsection; however the gap is spelled and whatever is escaped.
   */
  lemma SubHeaderTaken(name: Bytes, gap: Bytes, sub: seq<Piece>, tail: Bytes, y: Bytes)
    requires SectionOk(name) && HeaderGapOk(gap) && Comparable(sub)
    ensures var header := ThingText(SubHeader(name, gap, sub));
      var n := R.NameMatch(header + tail, y);
      if R.CString(y) == name + [46] + SubMeant(sub) then TakesTo(header + tail, |header|, n) else n == 0
  {
    hide R.MatchFrom, R.SkipSpaces, R.Spells, R.At, R.CString, R.PlainBytes, SectionOk, HeaderGapOk, Comparable,
      PiecesText, SubMeant;
    var s, t, d := SubMeant(sub), PiecesText(sub), |name| + |gap|;
    var header := ThingText(SubHeader(name, gap, sub));
    var buf := header + tail;
    PlainName(name);
    HeaderParts(name, gap, t, tail);
    R.PlainRun(buf, 1, name, y, 0);
    GapCompared(buf, 1 + |name|, gap, y, |name|);
    SubCompared(buf, d + 2, sub, y, |name| + 1);
    QuoteEnds(buf, d + 2 + |t|, y, |name| + 1 + |s|);
    SpacesAre(buf, |header|);
    NoNul(sub);
    R.CStringSpells(name + [46] + s, y);
    R.SpellsConcat(y, 0, name + [46], s);
    R.SpellsConcat(y, 0, name, [46]);
    OneSpelled(y, |name|, 46);
    Begins(buf, y);
  }

  lemma OneSpelled(y: Bytes, j: nat, c: Byte)
    ensures R.Spells(y, j, [c]) <==> R.At(y, j) == c
  {
    if R.Spells(y, j, [c]) { assert R.At(y, j + 0) == [c][0]; }
  }

  lemma NoNul(sub: seq<Piece>)
    requires Comparable(sub)
    ensures NUL !in SubMeant(sub)
  {
    if sub != [] { NoNul(sub[1..]); }
  }

  lemma HeaderParts(name: Bytes, gap: Bytes, t: Bytes, tail: Bytes)
    ensures var buf := [91] + name + gap + [34] + t + [34, 93] + tail;
      var d := |name| + |gap|;
      && |buf| == d + |t| + 4 + |tail| && buf[0] == 91 && buf[1..1 + |name|] == name
      && buf[1 + |name|..1 + d] == gap && buf[1 + d] == 34 && buf[d + 2..d + 2 + |t|] == t
      && buf[d + 2 + |t|] == 34 && buf[d + 3 + |t|] == 93
  {
  }
}

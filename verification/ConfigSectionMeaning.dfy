/**
 What renaming, removing and copying a section do to the entries of a file. The three work on lines,
 the parser on bytes; the two views agree where the sections in question begin and end between items.
 */
module ConfigSectionMeaning {
  import opened Bytes
  import opened ConfigGrammar
  import opened ConfigFacts
  import opened ConfigMeaning
  import opened ConfigSections
  import opened Optional
  import W = ConfigWriter
  import R = ConfigRename

  // ---- reading line by line ------------------------------------------------------------------

  /** The header lines of `ls` where a section of `a` begins or ends stand between items, read from mode `m`. */
  predicate Steady(m: Mode, ls: seq<Bytes>, within: bool, a: Bytes)
    decreases |ls|
  {
    ls != [] ==>
      && (IsHeader(ls[0]) && (within || Hit(ls[0], a)) ==> Quiet(m))
      && Steady(Walk(m, ls[0]), ls[1..], WithinNow(ls[0], within, a), a)
  }

  /** A line, then the rest of the file. */
  lemma ReadLine(m: Mode, l: Bytes, r: Bytes)
    requires l != [] && (l[|l| - 1] == LF || r == [])
    ensures EntriesFrom(m, l + r) == Prefixed(Pairs(m, l), EntriesFrom(Walk(m, l), r))
  {
    hide Walk, Pairs, Finish;
    WalkConcat(m, l, r);
    match Finish(Walk(m, l + r))
    case None =>
    case Some(last) => Assoc(Pairs(m, l), Pairs(Walk(m, l), r), last);
  }

  lemma ReadNext(m: Mode, ls: seq<Bytes>)
    requires ls != [] && Apart(ls)
    ensures Apart(ls[1..]) && OneLine(ls[0])
    ensures EntriesFrom(m, Join(ls)) == Prefixed(Pairs(m, ls[0]), EntriesFrom(Walk(m, ls[0]), Join(ls[1..])))
  {
    hide Walk, Pairs, EntriesFrom;
    if |ls| == 1 { assert ls[1..] == []; }
    ReadLine(m, ls[0], Join(ls[1..]));
  }

  lemma ReadNone(m: Mode)
    ensures EntriesFrom(m, Join([])) == Finish(m)
  {
    assert Walk(m, []) == m;
    match Finish(m)
    case None =>
    case Some(last) => assert [] + last == last;
  }

  lemma PrefixedSome(ps: seq<Pair>, r: Option<seq<Pair>>)
    ensures Prefixed(ps, r).Some? <==> r.Some?
    ensures Prefixed([], r) == r
  {
    if r.Some? { assert [] + r.value == r.value; }
  }

  // ---- header lines ------------------------------------------------------------------------------

  lemma BlankQuiet(m: Mode, c: Byte)
    requires Quiet(m) && IsSpace(c)
    ensures Quiet(Delta(m, c)) && PairOf(m, c) == []
  {
  }

  lemma OpensHeader(m: Mode)
    requires Quiet(m)
    ensures Delta(m, LBRACKET) == BaseVar([]) && PairOf(m, LBRACKET) == []
  {
  }

  lemma FirstNonSpaceNext(l: Bytes)
    requires l != []
    ensures FirstNonSpace(l) == if IsSpace(l[0]) then 1 + FirstNonSpace(l[1..]) else 0
  {
  }

  /** Behind its blanks a header is read alike from wherever it stands between items. */
  lemma {:induction false} HeaderFresh(m: Mode, k: Mode, l: Bytes)
    requires Quiet(m) && Quiet(k) && OneLine(l) && IsHeader(l)
    ensures Walk(m, l) == Walk(k, l) && Pairs(m, l) == Pairs(k, l)
    decreases |l|
  {
    hide Quiet, Delta, PairOf, Walk, Pairs;
    WalkUnfold(m, l);
    WalkUnfold(k, l);
    FirstNonSpaceNext(l);
    if IsSpace(l[0]) {
      var rest := l[1..];
      assert l[FirstNonSpace(l)] == rest[FirstNonSpace(rest)];
      NotFolded(l);
      BlankQuiet(m, l[0]);
      BlankQuiet(k, l[0]);
      HeaderFresh(Delta(m, l[0]), Delta(k, l[0]), rest);
    } else {
      OpensHeader(m);
      OpensHeader(k);
    }
  }

  /** Ahead of a header's bracket no CR LF is read as one. */
  lemma NotFolded(l: Bytes)
    requires OneLine(l) && IsHeader(l) && IsSpace(l[0])
    ensures |l| > 1 && CharLen(l) == 1 && CharAt(l) == l[0] && OneLine(l[1..]) && IsHeader(l[1..])
  {
    var rest := l[1..];
    assert FirstNonSpace(l) == 1 + FirstNonSpace(rest);
    assert l[FirstNonSpace(l)] == rest[FirstNonSpace(rest)];
  }

  // ---- removing ------------------------------------------------------------------------------------

  /** The entries of the file, read from mode `m` on, that stand on lines outside the sections of `a`. */
  function Staying(m: Mode, ls: seq<Bytes>, within: bool, a: Bytes): Option<seq<Pair>>
    decreases |ls|
  {
    if ls == [] then (if within then Some([]) else Finish(m))
    else
      var now := WithinNow(ls[0], within, a);
      Prefixed(if now then [] else Pairs(m, ls[0]), Staying(Walk(m, ls[0]), ls[1..], now, a))
  }

  lemma StayingNext(m: Mode, ls: seq<Bytes>, within: bool, a: Bytes)
    ensures ls == [] ==> Staying(m, ls, within, a) == if within then Some([]) else Finish(m)
    ensures ls != [] ==> (
      var now := WithinNow(ls[0], within, a);
      Staying(m, ls, within, a) ==
        Prefixed(if now then [] else Pairs(m, ls[0]), Staying(Walk(m, ls[0]), ls[1..], now, a)))
  {
    hide Walk, Pairs, Finish, WithinNow;
  }

  lemma SteadyNext(m: Mode, ls: seq<Bytes>, within: bool, a: Bytes)
    requires Steady(m, ls, within, a) && ls != []
    ensures IsHeader(ls[0]) && (within || Hit(ls[0], a)) ==> Quiet(m)
    ensures Steady(Walk(m, ls[0]), ls[1..], WithinNow(ls[0], within, a), a)
  {
    hide Walk, IsHeader, Hit, Quiet, WithinNow;
  }

  lemma WithinNowIs(l: Bytes, within: bool, a: Bytes)
    ensures WithinNow(l, within, a) == if IsHeader(l) then Hit(l, a) else within
  {
    hide IsHeader, Hit;
  }

  /**
   What is left is read as the entries that stay, from mode `k`: that of the file, or between items where lines were
   dropped.
   */
  lemma {:induction false} RemovedFrom(m: Mode, k: Mode, ls: seq<Bytes>, within: bool, a: Bytes)
    requires Apart(ls) && Steady(m, ls, within, a) && EntriesFrom(m, Join(ls)).Some?
    requires if within then Quiet(k) else k == m
    ensures EntriesFrom(k, Join(Outside(ls, within, a))) == Staying(m, ls, within, a)
    decreases |ls|
  {
    hide *;
    StayingNext(m, ls, within, a);
    if ls == [] {
      OutsideCons([], [], within, a);
      ReadNone(k);
      if within { FinishQuiet(k); }
    } else {
      var l, rest := ls[0], ls[1..];
      var now := WithinNow(l, within, a);
      assert ls == [l] + rest;
      OutsideCons(l, rest, within, a);
      WithinNowIs(l, within, a);
      SteadyNext(m, ls, within, a);
      HitHeader(l, a);
      ReadNext(m, ls);
      PrefixedSome(Pairs(m, l), EntriesFrom(Walk(m, l), Join(rest)));
      if now {
        PrefixedSome([], Staying(Walk(m, l), rest, now, a));
        RemovedFrom(Walk(m, l), k, rest, now, a);
        assert [] + Outside(rest, now, a) == Outside(rest, now, a);
      } else {
        if within { HeaderFresh(m, k, l); }
        RemovedFrom(Walk(m, l), Walk(k, l), rest, now, a);
        KeptLine(k, l, rest, now, a);
      }
    }
  }

  lemma FinishQuiet(k: Mode)
    requires Quiet(k)
    ensures Finish(k) == Some([])
  {
  }

  lemma KeptLine(k: Mode, l: Bytes, rest: seq<Bytes>, now: bool, a: Bytes)
    requires Apart([l] + rest)
    ensures EntriesFrom(k, Join([l] + Outside(rest, now, a))) ==
      Prefixed(Pairs(k, l), EntriesFrom(Walk(k, l), Join(Outside(rest, now, a))))
  {
    hide *;
    var out := Outside(rest, now, a);
    ApartHead(l, rest);
    OutsideShort(rest, now, a);
    JoinCons(l, out);
    if rest == [] { JoinEmpty(); }
    ReadLine(k, l, Join(out));
  }

  lemma ApartHead(l: Bytes, rest: seq<Bytes>)
    requires Apart([l] + rest)
    ensures l != [] && (l[|l| - 1] == LF || rest == []) && Apart(rest)
  {
    assert ([l] + rest)[1..] == rest;
  }

  lemma OutsideShort(rest: seq<Bytes>, now: bool, a: Bytes)
    ensures rest == [] ==> Outside(rest, now, a) == []
  {
  }

  lemma JoinEmpty()
    ensures Join([]) == []
  {
  }

  /**
   Removing the sections of `a` from a file that parses, and in which they begin and end between items:
   what is written holds exactly the entries that stood on lines outside those sections.
   */
  lemma RemovedEntries(text: Bytes, a: Bytes)
    requires Entries(text).Some? && Steady(INIT, Lines(text), false, a) && Outcome(text, a, None, false).Done?
    ensures Entries(Outcome(text, a, None, false).out) == Staying(INIT, Lines(text), false, a)
  {
    hide *;
    JoinLines(text);
    RemoveOutcome(text, a);
    EntriesAre(text);
    RemovedFrom(INIT, INIT, Lines(text), false, a);
    EntriesAre(Join(Outside(Lines(text), false, a)));
  }

  lemma EntriesAre(text: Bytes)
    ensures Entries(text) == EntriesFrom(INIT, text)
  {
    hide EntriesFrom;
  }

  /** The entries on lines inside them. */
  function Going(m: Mode, ls: seq<Bytes>, within: bool, a: Bytes): seq<Pair>
    decreases |ls|
  {
    if ls == [] then (if within && Finish(m).Some? then Finish(m).value else [])
    else
      var now := WithinNow(ls[0], within, a);
      (if now then Pairs(m, ls[0]) else []) + Going(Walk(m, ls[0]), ls[1..], now, a)
  }

  /** Each entry of the file stays or goes. */
  lemma {:induction false} StayOrGo(m: Mode, ls: seq<Bytes>, within: bool, a: Bytes)
    requires Apart(ls) && EntriesFrom(m, Join(ls)).Some?
    ensures Staying(m, ls, within, a).Some?
    ensures multiset(EntriesFrom(m, Join(ls)).value) ==
      multiset(Staying(m, ls, within, a).value) + multiset(Going(m, ls, within, a))
    decreases |ls|
  {
    hide Walk, Pairs, Finish, WithinNow, EntriesFrom, Join, Apart;
    if ls == [] {
      ReadNone(m);
    } else {
      var now := WithinNow(ls[0], within, a);
      ReadNext(m, ls);
      StayOrGo(Walk(m, ls[0]), ls[1..], now, a);
    }
  }

  // ---- the same entries under another header -------------------------------------------------------

  /** A key with the section `n1` in front of it, and `n2` in its place. */
  function MovedKey(key: Bytes, n1: Bytes, n2: Bytes): Bytes { n2 + if |n1| <= |key| then key[|n1|..] else [] }

  function Moved(ps: seq<Pair>, n1: Bytes, n2: Bytes): (r: seq<Pair>)
    ensures |r| == |ps| && forall i :: 0 <= i < |ps| ==> r[i] == Pair(MovedKey(ps[i].key, n1, n2), ps[i].value)
  {
    seq(|ps|, i requires 0 <= i < |ps| => Pair(MovedKey(ps[i].key, n1, n2), ps[i].value))
  }

  lemma MovedConcat(a: seq<Pair>, b: seq<Pair>, n1: Bytes, n2: Bytes)
    ensures Moved(a + b, n1, n2) == Moved(a, n1, n2) + Moved(b, n1, n2) && Moved([], n1, n2) == []
  {
  }

  /** Reading in the section `n1`: between items, or in an entry of it. */
  predicate InSection(m: Mode, n1: Bytes) {
    match m
    case Top(stem, _) => stem.name == n1
    case Name(stem, key) => stem.name == n1 && n1 <= key
    case NameSpace(stem, key) => stem.name == n1 && n1 <= key
    case Value(stem, key, _, _, _, _) => stem.name == n1 && n1 <= key
    case ValueEscape(stem, key, _, _) => stem.name == n1 && n1 <= key
    case _ => false
  }

  /** The same place under the header `t`. */
  function Shift(m: Mode, t: Stem): Mode {
    match m
    case Top(_, comment) => Top(t, comment)
    case Name(stem, key) => Name(t, MovedKey(key, stem.name, t.name))
    case NameSpace(stem, key) => NameSpace(t, MovedKey(key, stem.name, t.name))
    case Value(stem, key, quote, hash, trim, acc) => Value(t, MovedKey(key, stem.name, t.name), quote, hash, trim, acc)
    case ValueEscape(stem, key, quote, acc) => ValueEscape(t, MovedKey(key, stem.name, t.name), quote, acc)
    case _ => m
  }

  lemma MovedName(n1: Bytes, key: Bytes, n2: Bytes, more: Bytes)
    requires n1 <= key
    ensures MovedKey(key + more, n1, n2) == MovedKey(key, n1, n2) + more && n1 <= key + more
    ensures MovedKey(n1 + more, n1, n2) == n2 + more && n1 <= n1 + more
  {
    assert (key + more)[|n1|..] == key[|n1|..] + more;
    assert (n1 + more)[|n1|..] == more;
  }

  /** One character that opens no header is read alike under either. */
  lemma ShiftStep(m: Mode, n1: Bytes, t: Stem, c: Byte)
    requires InSection(m, n1) && !(m.Top? && !m.comment && c == LBRACKET)
    ensures Delta(Shift(m, t), c) == Shift(Delta(m, c), t)
    ensures InSection(Delta(m, c), n1) || Delta(m, c).Failed?
    ensures PairOf(Shift(m, t), c) == Moved(PairOf(m, c), n1, t.name)
  {
    hide Delta, PairOf, Shift, Moved;
    match m {
      case Top(_, _) => ShiftTopStep(m, n1, t, c);
      case Name(_, _) => ShiftNameStep(m, n1, t, c);
      case NameSpace(_, _) => ShiftNameStep(m, n1, t, c);
      case Value(_, _, _, _, _, _) => ShiftValueStep(m, n1, t, c);
      case ValueEscape(_, _, _, _) => ShiftValueStep(m, n1, t, c);
    }
  }

  lemma ShiftTopStep(m: Mode, n1: Bytes, t: Stem, c: Byte)
    requires InSection(m, n1) && m.Top? && !(!m.comment && c == LBRACKET)
    ensures Delta(Shift(m, t), c) == Shift(Delta(m, c), t)
    ensures InSection(Delta(m, c), n1) || Delta(m, c).Failed?
    ensures PairOf(Shift(m, t), c) == Moved(PairOf(m, c), n1, t.name)
  {
    hide MovedKey, Trimmed, IsSpace, IsKeyChar, IsAlpha, Lower;
    MovedName(n1, n1, t.name, [Lower(c)]);
  }

  lemma ShiftNameStep(m: Mode, n1: Bytes, t: Stem, c: Byte)
    requires InSection(m, n1) && (m.Name? || m.NameSpace?)
    ensures Delta(Shift(m, t), c) == Shift(Delta(m, c), t)
    ensures InSection(Delta(m, c), n1) || Delta(m, c).Failed?
    ensures PairOf(Shift(m, t), c) == Moved(PairOf(m, c), n1, t.name)
  {
    hide MovedKey, Trimmed, IsSpace, IsKeyChar, IsAlpha, Lower;
    MovedName(n1, m.key, t.name, [Lower(c)]);
  }

  lemma ShiftValueStep(m: Mode, n1: Bytes, t: Stem, c: Byte)
    requires InSection(m, n1) && (m.Value? || m.ValueEscape?)
    ensures Delta(Shift(m, t), c) == Shift(Delta(m, c), t)
    ensures InSection(Delta(m, c), n1) || Delta(m, c).Failed?
    ensures PairOf(Shift(m, t), c) == Moved(PairOf(m, c), n1, t.name)
  {
    hide PairOf, Moved, MovedKey, Trimmed, IsSpace, IsKeyChar, IsAlpha, Lower;
    ShiftValuePair(m, n1, t, c);
  }

  lemma ShiftValuePair(m: Mode, n1: Bytes, t: Stem, c: Byte)
    requires InSection(m, n1) && (m.Value? || m.ValueEscape?)
    ensures PairOf(Shift(m, t), c) == Moved(PairOf(m, c), n1, t.name)
  {
    hide Delta, MovedKey, Trimmed, IsSpace;
  }

  /** Some character of `r`, read from `m`, opens a header. */
  predicate Opens(m: Mode, r: Bytes)
    decreases |r|
  {
    r != [] && ((m.Top? && !m.comment && CharAt(r) == LBRACKET) || Opens(Delta(m, CharAt(r)), r[CharLen(r)..]))
  }

  lemma {:induction false} ShiftWalk(m: Mode, n1: Bytes, t: Stem, r: Bytes)
    requires (InSection(m, n1) || m.Failed?) && !Opens(m, r)
    ensures Walk(Shift(m, t), r) == Shift(Walk(m, r), t)
    ensures InSection(Walk(m, r), n1) || Walk(m, r).Failed?
    ensures Pairs(Shift(m, t), r) == Moved(Pairs(m, r), n1, t.name)
    decreases |r|
  {
    hide Delta, PairOf, InSection, Shift, Moved;
    if m.Failed? {
      WalkFailed(r);
      FailedShift(t);
      MovedConcat([], [], n1, t.name);
    } else if r == [] {
      MovedConcat([], [], n1, t.name);
    } else {
      var c, rest := CharAt(r), r[CharLen(r)..];
      ShiftStep(m, n1, t, c);
      ShiftWalk(Delta(m, c), n1, t, rest);
      MovedConcat(PairOf(m, c), Pairs(Delta(m, c), rest), n1, t.name);
    }
  }

  lemma FailedShift(t: Stem)
    ensures Shift(Failed, t) == Failed
  {
  }

  lemma ShiftFinish(m: Mode, n1: Bytes, t: Stem)
    requires InSection(m, n1) && Finish(m).Some?
    ensures Finish(Shift(m, t)) == Some(Moved(Finish(m).value, n1, t.name))
  {
    hide Delta, PairOf, InSection, Shift, Moved, MovedKey;
    ShiftStep(m, n1, t, LF);
    ShiftIs(m, n1, t);
    ShiftIs(Delta(m, LF), n1, t);
    if !Delta(m, LF).Top? { ShiftStep(Delta(m, LF), n1, t, LF); ShiftIs(Delta(Delta(m, LF), LF), n1, t); }
  }

  lemma ShiftIs(m: Mode, n1: Bytes, t: Stem)
    ensures (Shift(m, t).Top? <==> m.Top?) && (Shift(m, t).Value? <==> m.Value?) && (Shift(m, t).Bom? <==> m.Bom?)
    ensures InSection(m, n1) ==> !m.Bom?
  {
  }

  // ---- lines that open no header ---------------------------------------------------------------------

  /** Nothing but the last byte is a line feed. */
  predicate Tail(r: Bytes) { forall i :: 0 <= i < |r| - 1 ==> r[i] != LF }

  lemma TailNext(r: Bytes)
    requires r != [] && Tail(r)
    ensures Tail(r[CharLen(r)..]) && (CharAt(r) == LF ==> r[CharLen(r)..] == [])
  {
  }

  lemma InsideStep(m: Mode, n1: Bytes, c: Byte)
    requires (InSection(m, n1) || m.Failed?) && (m.Top? ==> m.comment) && c != LF
    ensures InSection(Delta(m, c), n1) || Delta(m, c).Failed?
    ensures Delta(m, c).Top? ==> Delta(m, c).comment
  {
    hide IsSpace, IsKeyChar, IsAlpha, Lower;
    if m.Name? { MovedName(n1, m.key, [], [Lower(c)]); }
  }

  /** Within an item or a comment a line opens no header. */
  lemma {:induction false} OpensNone(m: Mode, n1: Bytes, r: Bytes)
    requires (InSection(m, n1) || m.Failed?) && (m.Top? ==> m.comment) && Tail(r)
    ensures !Opens(m, r)
    decreases |r|
  {
    hide Delta, InSection, Tail;
    if r != [] {
      TailNext(r);
      if CharAt(r) == LF {
        assert !Opens(Delta(m, LF), []);
      } else {
        InsideStep(m, n1, CharAt(r));
        OpensNone(Delta(m, CharAt(r)), n1, r[CharLen(r)..]);
      }
    }
  }

  lemma TopStepOf(t: Stem, c: Byte)
    requires c != LF && c != LBRACKET
    ensures var d := Delta(Top(t, false), c);
      if IsSpace(c) then d == Top(t, false) else (InSection(d, t.name) || d.Failed?) && (d.Top? ==> d.comment)
  {
    hide IsSpace, IsAlpha;
    assert t.name <= t.name + [Lower(c)];
  }

  /** Nor does a line that is no header. */
  lemma {:induction false} PlainOpensNone(t: Stem, r: Bytes)
    requires Tail(r) && !IsHeader(r)
    ensures !Opens(Top(t, false), r)
    decreases |r|
  {
    hide Delta, Tail, InSection;
    if r != [] {
      var c, rest := CharAt(r), r[CharLen(r)..];
      TailNext(r);
      FirstNonSpaceNext(r);
      if c == LF {
        assert !Opens(Delta(Top(t, false), LF), []);
      } else {
        assert c == r[0] && rest == r[1..];
        TopStepOf(t, c);
        if IsSpace(c) {
          BlankFirst(r);
          PlainOpensNone(t, rest);
        } else {
          OpensNone(Delta(Top(t, false), c), t.name, rest);
        }
      }
    }
  }

  lemma BlankFirst(r: Bytes)
    requires r != [] && IsSpace(r[0])
    ensures IsHeader(r) <==> IsHeader(r[1..])
  {
    FirstNonSpaceNext(r);
  }

  lemma LineTail(l: Bytes)
    requires OneLine(l)
    ensures Tail(l)
  {
  }

  // ---- renaming ------------------------------------------------------------------------------------------

  /** What the comparison takes of line `l` is a whole header for the parser too, and no other follows on the line. */
  predicate WholeHeader(m: Mode, l: Bytes, a: Bytes) {
    var h := l[..HeaderEnd(l, a)];
    Walk(m, h).Top? && !Walk(m, h).comment && Pairs(m, h) == [] && !IsHeader(l[HeaderEnd(l, a)..])
  }

  /** That is so of every header of `a`. */
  predicate WholeHeaders(m: Mode, ls: seq<Bytes>, a: Bytes)
    decreases |ls|
  {
    ls != [] ==> (Hit(ls[0], a) ==> WholeHeader(m, ls[0], a)) && WholeHeaders(Walk(m, ls[0]), ls[1..], a)
  }

  /** The section a line of `a` opens, as the parser has it. */
  function SectionOpened(m: Mode, l: Bytes, a: Bytes): Bytes { StemOf(Walk(m, l[..HeaderEnd(l, a)])).name }

  /** The section of `a` that line `l` stands in, if any. */
  function UnderNow(m: Mode, l: Bytes, under: Option<Bytes>, a: Bytes): Option<Bytes> {
    if !IsHeader(l) then under else if Hit(l, a) then Some(SectionOpened(m, l, a)) else None
  }

  function MovedIf(ps: seq<Pair>, under: Option<Bytes>, n2: Bytes): seq<Pair> {
    if under.Some? then Moved(ps, under.value, n2) else ps
  }

  /** The entries of the file, those on lines in sections of `a` under the section `n2`. */
  function Resectioned(m: Mode, ls: seq<Bytes>, under: Option<Bytes>, a: Bytes, n2: Bytes): Option<seq<Pair>>
    decreases |ls|
  {
    if ls == [] then (if Finish(m).Some? then Some(MovedIf(Finish(m).value, under, n2)) else None)
    else
      var u := UnderNow(m, ls[0], under, a);
      Prefixed(MovedIf(Pairs(m, ls[0]), u, n2), Resectioned(Walk(m, ls[0]), ls[1..], u, a, n2))
  }

  lemma ResectionedNext(m: Mode, ls: seq<Bytes>, under: Option<Bytes>, a: Bytes, n2: Bytes)
    ensures ls == [] ==>
      Resectioned(m, ls, under, a, n2) == if Finish(m).Some? then Some(MovedIf(Finish(m).value, under, n2)) else None
    ensures ls != [] ==> (
      var u := UnderNow(m, ls[0], under, a);
      Resectioned(m, ls, under, a, n2) ==
        Prefixed(MovedIf(Pairs(m, ls[0]), u, n2), Resectioned(Walk(m, ls[0]), ls[1..], u, a, n2)))
  {
    hide Walk, Pairs, Finish, UnderNow, MovedIf;
  }

  lemma WholeHeadersNext(m: Mode, ls: seq<Bytes>, a: Bytes)
    requires WholeHeaders(m, ls, a) && ls != []
    ensures (Hit(ls[0], a) ==> WholeHeader(m, ls[0], a)) && WholeHeaders(Walk(m, ls[0]), ls[1..], a)
  {
    hide Walk, Hit, WholeHeader;
  }

  lemma TurnedNext(ls: seq<Bytes>, a: Bytes, b: Bytes)
    ensures ls == [] ==> TurnedAll(ls, a, b) == []
    ensures ls != [] ==> TurnedAll(ls, a, b) == Turned(ls[0], a, b) + TurnedAll(ls[1..], a, b)
  {
    hide Turned;
  }

  lemma TurnedIs(l: Bytes, a: Bytes, b: Bytes)
    ensures !Hit(l, a) ==> Turned(l, a, b) == [l]
    ensures Hit(l, a) ==> (
      var rest := l[HeaderEnd(l, a)..];
      Turned(l, a, b) == [W.SectionLine(b)] + if rest == [] then [] else [[TAB] + rest])
  {
    hide W.SectionLine, HeaderEnd;
  }

  /** How the header line of a renamed section, and what is left of it, is read. */
  lemma HeaderTurned(m: Mode, k: Mode, l: Bytes, a: Bytes, b: Bytes, out: Bytes)
    requires Quiet(k) && OneLine(l) && Hit(l, a) && WholeHeader(m, l, a)
    requires W.BaseOk(b) && (l[|l| - 1] == LF || out == [])
    ensures var t, n1 := W.BaseStem(b), SectionOpened(m, l, a);
      && (InSection(Walk(m, l), n1) || Walk(m, l).Failed?)
      && EntriesFrom(k, Join(Turned(l, a, b)) + out) ==
        Prefixed(Moved(Pairs(m, l), n1, t.name), EntriesFrom(Shift(Walk(m, l), t), out))
  {
    hide *;
    var e := HeaderEnd(l, a);
    var h, rest, t, n1 := l[..e], l[e..], W.BaseStem(b), SectionOpened(m, l, a);
    WholeHeaderIs(m, l, a);
    assert l == h + rest;
    QuietIsTop(Walk(m, h));
    WalkConcatTop(m, h, rest);
    assert [] + Pairs(Walk(m, h), rest) == Pairs(Walk(m, h), rest);
    RestTail(l, e);
    PlainOpensNone(Walk(m, h).stem, rest);
    TopInSection(Walk(m, h));
    ShiftWalk(Walk(m, h), n1, t, rest);
    ShiftTop(Walk(m, h), t);
    W.HeaderReads(k, b);
    SectionEnds(b);
    TurnedIs(l, a, b);
    var tail := if rest == [] then [] else [TAB] + rest;
    TurnedJoined(l, a, b);
    assert W.SectionLine(b) + tail + out == W.SectionLine(b) + (tail + out);
    ReadLine(k, W.SectionLine(b), tail + out);
    PrefixedSome([], EntriesFrom(Top(t, false), tail + out));
    if rest == [] {
      assert tail + out == out;
      WalkNothing(Walk(m, h));
      PrefixedSome([], EntriesFrom(Top(t, false), out));
      MovedConcat([], [], n1, t.name);
    } else {
      assert tail[|tail| - 1] == l[|l| - 1];
      ReadLine(Top(t, false), tail, out);
      TabFirst(t, rest);
    }
  }

  lemma WholeHeaderIs(m: Mode, l: Bytes, a: Bytes)
    requires WholeHeader(m, l, a)
    ensures HeaderEnd(l, a) <= |l|
    ensures var h := l[..HeaderEnd(l, a)];
      Walk(m, h).Top? && !Walk(m, h).comment && Pairs(m, h) == [] && !IsHeader(l[HeaderEnd(l, a)..])
      && SectionOpened(m, l, a) == Walk(m, h).stem.name
  {
    hide HeaderEnd, IsHeader, Walk, Pairs;
  }

  lemma QuietIsTop(m: Mode)
    requires m.Top?
    ensures TopLike(m)
  {
  }

  lemma RestTail(l: Bytes, e: nat)
    requires OneLine(l) && e <= |l|
    ensures Tail(l[e..])
  {
  }

  lemma TopInSection(m: Mode)
    requires m.Top? && !m.comment
    ensures InSection(m, m.stem.name) && m == Top(m.stem, false)
  {
  }

  lemma ShiftTop(m: Mode, t: Stem)
    requires m.Top? && !m.comment
    ensures Shift(m, t) == Top(t, false)
  {
  }

  lemma SectionEnds(b: Bytes)
    ensures W.SectionLine(b) != [] && W.SectionLine(b)[|W.SectionLine(b)| - 1] == LF
  {
    hide W.Escaped;
  }

  lemma TurnedJoined(l: Bytes, a: Bytes, b: Bytes)
    requires Hit(l, a)
    ensures var rest := l[HeaderEnd(l, a)..];
      Join(Turned(l, a, b)) == W.SectionLine(b) + if rest == [] then [] else [TAB] + rest
  {
    hide W.SectionLine, HeaderEnd, Turned, Hit, Join;
    TurnedIs(l, a, b);
    var rest := l[HeaderEnd(l, a)..];
    JoinOne(W.SectionLine(b));
    if rest != [] {
      JoinConcat([W.SectionLine(b)], [[TAB] + rest]);
      JoinOne([TAB] + rest);
    } else {
      assert [W.SectionLine(b)] + [] == [W.SectionLine(b)] && W.SectionLine(b) + [] == W.SectionLine(b);
    }
  }

  lemma TabFirst(t: Stem, rest: Bytes)
    ensures Walk(Top(t, false), [TAB] + rest) == Walk(Top(t, false), rest)
    ensures Pairs(Top(t, false), [TAB] + rest) == Pairs(Top(t, false), rest)
  {
    hide Walk, Pairs;
    WalkUnfold(Top(t, false), [TAB] + rest);
    assert ([TAB] + rest)[1..] == rest && [] + Pairs(Top(t, false), rest) == Pairs(Top(t, false), rest);
  }

  /** Where the renamed file is read, when the file is read at `m`. */
  predicate InStep(m: Mode, k: Mode, under: Option<Bytes>, t: Stem) {
    match under
    case None => k == m
    case Some(n1) => InSection(m, n1) && k == Shift(m, t)
  }

  lemma {:induction false} RenamedFrom(m: Mode, k: Mode, ls: seq<Bytes>, under: Option<Bytes>, a: Bytes, b: Bytes)
    requires Apart(ls) && Steady(m, ls, under.Some?, a) && WholeHeaders(m, ls, a) && EntriesFrom(m, Join(ls)).Some?
    requires W.BaseOk(b)
    requires InStep(m, k, under, W.BaseStem(b))
    ensures EntriesFrom(k, Join(TurnedAll(ls, a, b))) == Resectioned(m, ls, under, a, W.BaseStem(b).name)
    decreases |ls|
  {
    hide *;
    var t := W.BaseStem(b);
    ResectionedNext(m, ls, under, a, t.name);
    TurnedNext(ls, a, b);
    if ls == [] {
      ReadNone(m);
      ReadNone(k);
      StepFinish(m, k, under, t);
    } else {
      var l, rest := ls[0], ls[1..];
      var u, out := UnderNow(m, l, under, a), Join(TurnedAll(rest, a, b));
      SteadyNext(m, ls, under.Some?, a);
      WithinNowIs(l, under.Some?, a);
      UnderNowIs(m, l, under, a);
      WholeHeadersNext(m, ls, a);
      ReadNext(m, ls);
      PrefixedSome(Pairs(m, l), EntriesFrom(Walk(m, l), Join(rest)));
      LastLine(ls, a, b);
      ParsesOn(Walk(m, l), Join(rest));
      LineTurned(m, k, l, under, a, b, out);
      JoinConcat(Turned(l, a, b), TurnedAll(rest, a, b));
      var k2 := if u.Some? then Shift(Walk(m, l), t) else Walk(m, l);
      RenamedFrom(Walk(m, l), k2, rest, u, a, b);
    }
  }

  lemma LastLine(ls: seq<Bytes>, a: Bytes, b: Bytes)
    requires Apart(ls) && ls != []
    ensures OneLine(ls[0]) && (ls[0][|ls[0]| - 1] == LF || Join(TurnedAll(ls[1..], a, b)) == [])
  {
    hide Turned;
  }

  lemma StepFinish(m: Mode, k: Mode, under: Option<Bytes>, t: Stem)
    requires InStep(m, k, under, t) && Finish(m).Some?
    ensures Finish(k) == Some(MovedIf(Finish(m).value, under, t.name))
  {
    hide Finish, InSection, Shift, Moved;
    if under.Some? { ShiftFinish(m, under.value, t); }
  }

  lemma ParsesOn(m: Mode, r: Bytes)
    requires EntriesFrom(m, r).Some?
    ensures !m.Failed?
  {
    if m.Failed? { WalkFailed(r); }
  }

  /** One line of the renamed file. */
  lemma LineTurned(m: Mode, k: Mode, l: Bytes, under: Option<Bytes>, a: Bytes, b: Bytes, out: Bytes)
    requires OneLine(l) && (l[|l| - 1] == LF || out == []) && W.BaseOk(b) && InStep(m, k, under, W.BaseStem(b))
    requires IsHeader(l) && (under.Some? || Hit(l, a)) ==> Quiet(m)
    requires (Hit(l, a) ==> WholeHeader(m, l, a)) && !Walk(m, l).Failed?
    ensures var u, t := UnderNow(m, l, under, a), W.BaseStem(b);
      var k2 := if u.Some? then Shift(Walk(m, l), t) else Walk(m, l);
      && InStep(Walk(m, l), k2, u, t)
      && EntriesFrom(k, Join(Turned(l, a, b)) + out) == Prefixed(MovedIf(Pairs(m, l), u, t.name), EntriesFrom(k2, out))
  {
    hide *;
    var t := W.BaseStem(b);
    UnderNowIs(m, l, under, a);
    TurnedIs(l, a, b);
    JoinOne(l);
    HitHeader(l, a);
    StepIs(m, k, under, t);
    StepIs(Walk(m, l), Shift(Walk(m, l), t), UnderNow(m, l, under, a), t);
    StepIs(Walk(m, l), Walk(m, l), UnderNow(m, l, under, a), t);
    MovedIfIs(Pairs(m, l), UnderNow(m, l, under, a), t.name);
    ReadLineHere(k, l, out);
    if Hit(l, a) {
      QuietShift(m, k, under, t);
      HeaderTurned(m, k, l, a, b, out);
    } else if IsHeader(l) && under.Some? {
      QuietShift(m, k, under, t);
      HeaderFresh(m, k, l);
    } else if under.Some? {
      LineTail(l);
      PlainLine(m, under.value, l);
      ShiftWalk(m, under.value, t, l);
    }
  }

  lemma ReadLineHere(k: Mode, l: Bytes, out: Bytes)
    requires OneLine(l) && (l[|l| - 1] == LF || out == [])
    ensures EntriesFrom(k, l + out) == Prefixed(Pairs(k, l), EntriesFrom(Walk(k, l), out))
  {
    hide EntriesFrom, Walk, Pairs;
    ReadLine(k, l, out);
  }

  lemma UnderNowIs(m: Mode, l: Bytes, under: Option<Bytes>, a: Bytes)
    ensures UnderNow(m, l, under, a) ==
      if !IsHeader(l) then under else if Hit(l, a) then Some(SectionOpened(m, l, a)) else None
  {
    hide IsHeader, Hit, SectionOpened;
  }

  lemma HitHeader(l: Bytes, a: Bytes)
    ensures Hit(l, a) ==> IsHeader(l)
  {
    hide IsHeader;
  }

  lemma StepIs(m: Mode, k: Mode, under: Option<Bytes>, t: Stem)
    ensures InStep(m, k, under, t) <==> if under.Some? then InSection(m, under.value) && k == Shift(m, t) else k == m
  {
    hide InSection, Shift;
  }

  lemma MovedIfIs(ps: seq<Pair>, under: Option<Bytes>, n2: Bytes)
    ensures MovedIf(ps, under, n2) == if under.Some? then Moved(ps, under.value, n2) else ps
  {
    hide Moved;
  }

  lemma QuietShift(m: Mode, k: Mode, under: Option<Bytes>, t: Stem)
    requires InStep(m, k, under, t) && Quiet(m)
    ensures Quiet(k)
  {
  }

  lemma PlainLine(m: Mode, n1: Bytes, l: Bytes)
    requires InSection(m, n1) && Tail(l) && !IsHeader(l)
    ensures !Opens(m, l)
  {
    hide InSection, Tail, IsHeader, Opens;
    if m.Top? && !m.comment { PlainOpensNone(m.stem, l); } else { OpensNone(m, n1, l); }
  }

  /**
   Renaming the sections `a` to `b` in a file that parses, in which they begin and end between items, and
   what is taken for a header of `a` is one: what is written holds the same entries in the same order,
   those on lines in sections of `a` under the section `b`.
   */
  lemma RenamedEntries(text: Bytes, a: Bytes, b: Bytes)
    requires Entries(text).Some? && Steady(INIT, Lines(text), false, a)
    requires WholeHeaders(INIT, Lines(text), a) && W.BaseOk(b)
    requires Outcome(text, a, Some(b), false).Done?
    ensures Entries(Outcome(text, a, Some(b), false).out) == Resectioned(INIT, Lines(text), None, a, W.BaseStem(b).name)
  {
    hide *;
    JoinLines(text);
    RenameOutcome(text, a, b);
    EntriesAre(text);
    StepIs(INIT, INIT, None, W.BaseStem(b));
    RenamedFrom(INIT, INIT, Lines(text), None, a, b);
    EntriesAre(Join(TurnedAll(Lines(text), a, b)));
  }

  // ---- copying ---------------------------------------------------------------------------------------------

  /** A header's line ends between items. */
  predicate Shuts(m: Mode, l: Bytes) { Walk(m, l).Top? && !Walk(m, l).comment }

  /**
   What is taken for a header of `a` is one, whose line ends between items, and its section is closed: its lines
   have line ends, and its last value goes on into no line that is not there.
   */
  predicate Copyable(m: Mode, ls: seq<Bytes>, within: bool, a: Bytes)
    decreases |ls|
  {
    if ls == [] then within ==> Quiet(m)
    else
      var now := WithinNow(ls[0], within, a);
      && (Hit(ls[0], a) ==> WholeHeader(m, ls[0], a) && Shuts(m, ls[0]))
      && (now ==> Ended(ls[0]))
      && Copyable(Walk(m, ls[0]), ls[1..], now, a)
  }

  lemma CopyableNext(m: Mode, ls: seq<Bytes>, within: bool, a: Bytes)
    ensures ls == [] ==> (Copyable(m, ls, within, a) <==> (within ==> Quiet(m)))
    ensures ls != [] && Copyable(m, ls, within, a) ==> (
      var now := WithinNow(ls[0], within, a);
      && (Hit(ls[0], a) ==> WholeHeader(m, ls[0], a) && Shuts(m, ls[0]))
      && (now ==> Ended(ls[0])) && Copyable(Walk(m, ls[0]), ls[1..], now, a))
  {
    hide Walk, Hit, WholeHeader, Shuts, Ended, WithinNow, Quiet;
  }

  /**
   The entries of the file, each section of `a` followed by those on the lines behind its header, under the section
   `n2`; `held` are those gathered.
   */
  function Doubled(m: Mode, ls: seq<Bytes>, under: Option<Bytes>, held: seq<Pair>, a: Bytes,
      n2: Bytes): Option<seq<Pair>>
    decreases |ls|
  {
    if ls == [] then (if Finish(m).Some? then Some(Finish(m).value + held) else None)
    else
      var l, u := ls[0], UnderNow(m, ls[0], under, a);
      if IsHeader(l) then Prefixed(held + Pairs(m, l), Doubled(Walk(m, l), ls[1..], u, [], a, n2))
      else Prefixed(Pairs(m, l),
        Doubled(Walk(m, l), ls[1..], u, if u.Some? then held + Moved(Pairs(m, l), u.value, n2) else [], a, n2))
  }

  lemma DoubledNext(m: Mode, ls: seq<Bytes>, under: Option<Bytes>, held: seq<Pair>, a: Bytes, n2: Bytes)
    ensures ls == [] ==>
      Doubled(m, ls, under, held, a, n2) == if Finish(m).Some? then Some(Finish(m).value + held) else None
    ensures ls != [] ==> (
      var l, u := ls[0], UnderNow(m, ls[0], under, a);
      Doubled(m, ls, under, held, a, n2) ==
        if IsHeader(l) then Prefixed(held + Pairs(m, l), Doubled(Walk(m, l), ls[1..], u, [], a, n2))
        else Prefixed(Pairs(m, l),
          Doubled(Walk(m, l), ls[1..], u, if u.Some? then held + Moved(Pairs(m, l), u.value, n2) else [], a, n2)))
  {
    hide Walk, Pairs, Finish, UnderNow, IsHeader, Moved;
  }

  /** The copy being gathered reads from its header to where the file is read, shifted, and holds `held`. */
  predicate Gathers(m: Mode, pend: seq<Bytes>, under: Option<Bytes>, held: seq<Pair>, b: Bytes) {
    match under
    case None => pend == [] && held == []
    case Some(n1) =>
      && InSection(m, n1) && pend != [] && pend[0] == W.SectionLine(b) && AllEnded(pend)
      && Walk(Top(W.BaseStem(b), false), Join(pend[1..])) == Shift(m, W.BaseStem(b))
      && Pairs(Top(W.BaseStem(b), false), Join(pend[1..])) == held
  }

  lemma GathersIs(m: Mode, pend: seq<Bytes>, under: Option<Bytes>, held: seq<Pair>, b: Bytes)
    ensures Gathers(m, pend, under, held, b) <==>
      if under.None? then pend == [] && held == []
      else
        && InSection(m, under.value) && pend != [] && pend[0] == W.SectionLine(b) && AllEnded(pend)
        && Walk(Top(W.BaseStem(b), false), Join(pend[1..])) == Shift(m, W.BaseStem(b))
        && Pairs(Top(W.BaseStem(b), false), Join(pend[1..])) == held
  {
    hide InSection, Walk, Pairs, Join, Shift, AllEnded, W.SectionLine;
  }

  lemma {:induction false} EndedJoin(ls: seq<Bytes>)
    requires AllEnded(ls)
    ensures Join(ls) == [] || Join(ls)[|Join(ls)| - 1] == LF
  {
    if ls != [] {
      assert ls == [ls[0]] + ls[1..];
      EndedJoin(ls[1..]);
    }
  }

  lemma AllEndedIs(ls: seq<Bytes>)
    ensures AllEnded(ls) <==> forall i :: 0 <= i < |ls| ==> Ended(ls[i])
  {
    hide Ended;
  }

  lemma WalkJoined(m: Mode, x: Bytes, y: Bytes)
    requires x == [] || x[|x| - 1] == LF
    ensures Walk(m, x + y) == Walk(Walk(m, x), y) && Pairs(m, x + y) == Pairs(m, x) + Pairs(Walk(m, x), y)
  {
    hide Walk, Pairs;
    WalkConcat(m, x, y);
  }

  lemma ReadJoined(m: Mode, x: Bytes, y: Bytes)
    requires x == [] || x[|x| - 1] == LF
    ensures EntriesFrom(m, x + y) == Prefixed(Pairs(m, x), EntriesFrom(Walk(m, x), y))
  {
    hide Walk, Pairs, EntriesFrom;
    if x == [] {
      WalkNothing(m);
      assert x + y == y;
      PrefixedSome([], EntriesFrom(m, y));
    } else {
      ReadLine(m, x, y);
    }
  }

  /** A copy put between items is read as what it holds. */
  lemma CopyReads(m: Mode, pend: seq<Bytes>, under: Option<Bytes>, held: seq<Pair>, b: Bytes, r: Bytes)
    requires (under.Some? ==> Quiet(m)) && Gathers(m, pend, under, held, b) && W.BaseOk(b)
    ensures var k := if under.Some? then Shift(m, W.BaseStem(b)) else m;
      (under.Some? ==> Quiet(k)) && EntriesFrom(m, Join(pend) + r) == Prefixed(held, EntriesFrom(k, r))
  {
    hide *;
    GathersIs(m, pend, under, held, b);
    if under.None? {
      JoinEmpty();
      assert [] + r == r;
      PrefixedSome([], EntriesFrom(m, r));
    } else {
      var t, tail := W.BaseStem(b), pend[1..];
      assert pend == [pend[0]] + tail;
      JoinCons(pend[0], tail);
      AllEndedIs(pend);
      AllEndedIs(tail);
      EndedJoin(tail);
      SectionEnds(b);
      W.HeaderReads(m, b);
      WalkJoined(m, W.SectionLine(b), Join(tail));
      JoinedEnd(W.SectionLine(b), Join(tail));
      ReadJoined(m, W.SectionLine(b) + Join(tail), r);
      assert [] + held == held;
      QuietShifted(m, t);
    }
  }

  lemma JoinedEnd(x: Bytes, y: Bytes)
    requires x != [] && x[|x| - 1] == LF && (y == [] || y[|y| - 1] == LF)
    ensures (x + y)[|x + y| - 1] == LF
  {
  }

  lemma QuietShifted(m: Mode, t: Stem)
    requires Quiet(m)
    ensures Quiet(Shift(m, t))
  {
  }

  function NextHeld(m: Mode, l: Bytes, under: Option<Bytes>, held: seq<Pair>, a: Bytes, n2: Bytes): seq<Pair> {
    if IsHeader(l) then []
    else
      var u := UnderNow(m, l, under, a);
      if u.Some? then held + Moved(Pairs(m, l), u.value, n2) else []
  }

  lemma NextHeldIs(m: Mode, l: Bytes, under: Option<Bytes>, held: seq<Pair>, a: Bytes, n2: Bytes)
    ensures NextHeld(m, l, under, held, a, n2) ==
      if IsHeader(l) then []
      else (var u := UnderNow(m, l, under, a); if u.Some? then held + Moved(Pairs(m, l), u.value, n2) else [])
  {
    hide IsHeader, UnderNow, Pairs, Moved;
  }

  /** One more line keeps the copy in step. */
  lemma GathersNext(m: Mode, l: Bytes, pend: seq<Bytes>, under: Option<Bytes>, held: seq<Pair>, a: Bytes, b: Bytes)
    requires Gathers(m, pend, under, held, b) && OneLine(l) && Renamable(b) && !Walk(m, l).Failed?
    requires (Hit(l, a) ==> WholeHeader(m, l, a) && Shuts(m, l)) && (UnderNow(m, l, under, a).Some? ==> Ended(l))
    ensures Gathers(Walk(m, l), NextPend(l, pend, a, b), UnderNow(m, l, under, a),
      NextHeld(m, l, under, held, a, W.BaseStem(b).name), b)
  {
    hide *;
    var t := W.BaseStem(b);
    var u, next, more := UnderNow(m, l, under, a), NextPend(l, pend, a, b), NextHeld(m, l, under, held, a, t.name);
    UnderNowIs(m, l, under, a);
    NextPendIs(l, pend, a, b);
    NextHeldIs(m, l, under, held, a, t.name);
    HitHeader(l, a);
    GathersIs(m, pend, under, held, b);
    GathersIs(Walk(m, l), next, u, more, b);
    AllEndedIs(next);
    if Hit(l, a) {
      HeaderGathers(m, l, a, b);
      SectionLineEnds(b);
    } else if u.Some? {
      AllEndedIs(pend);
      LineTail(l);
      PlainLine(m, u.value, l);
      ShiftWalk(m, u.value, t, l);
      assert next[1..] == pend[1..] + [l];
      JoinConcat(pend[1..], [l]);
      JoinOne(l);
      AllEndedIs(pend[1..]);
      EndedJoin(pend[1..]);
      WalkJoined(Top(t, false), Join(pend[1..]), l);
    }
  }

  lemma HeaderGathers(m: Mode, l: Bytes, a: Bytes, b: Bytes)
    requires OneLine(l) && Hit(l, a) && WholeHeader(m, l, a) && Shuts(m, l)
    ensures InSection(Walk(m, l), SectionOpened(m, l, a))
    ensures var t, next: seq<Bytes> := W.BaseStem(b), [W.SectionLine(b)];
      && Walk(Top(t, false), Join(next[1..])) == Shift(Walk(m, l), t) && Pairs(Top(t, false), Join(next[1..])) == []
  {
    hide *;
    var e, t := HeaderEnd(l, a), W.BaseStem(b);
    var h, rest, next: seq<Bytes> := l[..e], l[e..], [W.SectionLine(b)];
    WholeHeaderIs(m, l, a);
    assert l == h + rest && next[1..] == [];
    QuietIsTop(Walk(m, h));
    WalkConcatTop(m, h, rest);
    RestTail(l, e);
    PlainOpensNone(Walk(m, h).stem, rest);
    TopInSection(Walk(m, h));
    ShiftWalk(Walk(m, h), SectionOpened(m, l, a), t, rest);
    ShutsIs(m, l);
    ShiftTop(Walk(m, l), t);
    JoinEmpty();
    WalkNothing(Top(t, false));
  }

  lemma EndedIs(l: Bytes)
    ensures Ended(l) <==> OneLine(l) && l[|l| - 1] == LF
  {
  }

  lemma ShutsIs(m: Mode, l: Bytes)
    requires Shuts(m, l)
    ensures Walk(m, l).Top? && !Walk(m, l).comment && !Walk(m, l).Failed?
  {
    hide Walk;
  }

  /** The new file's own lines are read as the file's, and each copy as what it holds. */
  lemma {:induction false} CopiedFrom(m: Mode, ls: seq<Bytes>, pend: seq<Bytes>, under: Option<Bytes>, held: seq<Pair>,
      a: Bytes, b: Bytes)
    requires Apart(ls) && Steady(m, ls, under.Some?, a)
    requires Copyable(m, ls, under.Some?, a) && EntriesFrom(m, Join(ls)).Some?
    requires W.BaseOk(b) && Renamable(b) && Gathers(m, pend, under, held, b)
    ensures EntriesFrom(m, Join(Body(ls, pend, a, b) + Pending(ls, pend, a, b))) ==
      Doubled(m, ls, under, held, a, W.BaseStem(b).name)
    decreases |ls|
  {
    hide *;
    var t := W.BaseStem(b);
    DoubledNext(m, ls, under, held, a, t.name);
    BodyNext(ls, pend, a, b);
    CopyableNext(m, ls, under.Some?, a);
    if ls == [] {
      ReadNone(m);
      CopyEnds(m, pend, under, held, b);
      assert [] + pend == pend;
    } else {
      var l, rest := ls[0], ls[1..];
      var next, u, more := NextPend(l, pend, a, b), UnderNow(m, l, under, a), NextHeld(m, l, under, held, a, t.name);
      SteadyNext(m, ls, under.Some?, a);
      ReadNext(m, ls);
      PrefixedSome(Pairs(m, l), EntriesFrom(Walk(m, l), Join(rest)));
      ParsesOn(Walk(m, l), Join(rest));
      NextPendIs(l, pend, a, b);
      NextHeldIs(m, l, under, held, a, t.name);
      UnderNowIs(m, l, under, a);
      WithinNowIs(l, under.Some?, a);
      HitHeader(l, a);
      GathersNext(m, l, pend, under, held, a, b);
      CopiedFrom(Walk(m, l), rest, next, u, more, a, b);
      var out := Body(rest, next, a, b) + Pending(rest, next, a, b);
      assert ls == [l] + rest;
      LineCopied(m, l, pend, under, held, a, b, out, rest);
    }
  }

  lemma CopyEnds(m: Mode, pend: seq<Bytes>, under: Option<Bytes>, held: seq<Pair>, b: Bytes)
    requires Gathers(m, pend, under, held, b) && W.BaseOk(b) && (under.Some? ==> Quiet(m)) && Finish(m).Some?
    ensures EntriesFrom(m, Join(pend)) == Some(Finish(m).value + held)
  {
    hide *;
    GathersIs(m, pend, under, held, b);
    ReadNone(m);
    if under.Some? {
      CopyReads(m, pend, under, held, b, []);
      assert Join(pend) + [] == Join(pend) && held + [] == held && [] + held == held;
      NothingLeft(Shift(m, W.BaseStem(b)));
      FinishQuiet(m);
      PrefixedIs(held, []);
    } else {
      assert pend == [] && held == [];
      assert EntriesFrom(m, Join(pend)) == Finish(m);
      assert Finish(m).value + held == Finish(m).value;
    }
  }

  lemma PrefixedIs(ps: seq<Pair>, qs: seq<Pair>)
    ensures Prefixed(ps, Some(qs)) == Some(ps + qs)
  {
  }

  lemma PrefixedTwice(a: seq<Pair>, b: seq<Pair>, r: Option<seq<Pair>>)
    ensures Prefixed(a, Prefixed(b, r)) == Prefixed(a + b, r)
  {
    if r.Some? { assert a + (b + r.value) == a + b + r.value; }
  }

  /** One line of the file with copies, behind the copy it closes. */
  lemma LineCopied(m: Mode, l: Bytes, pend: seq<Bytes>, under: Option<Bytes>, held: seq<Pair>, a: Bytes, b: Bytes,
                   out: seq<Bytes>, rest: seq<Bytes>)
    requires Gathers(m, pend, under, held, b) && W.BaseOk(b)
    requires (IsHeader(l) && under.Some? ==> Quiet(m)) && Apart([l] + rest)
    requires out == Body(rest, NextPend(l, pend, a, b), a, b) + Pending(rest, NextPend(l, pend, a, b), a, b)
    requires UnderNow(m, l, under, a).Some? ==> Ended(l)
    ensures var ls := [l] + rest;
      EntriesFrom(m, Join(Body(ls, pend, a, b) + Pending(ls, pend, a, b))) ==
        Prefixed(if IsHeader(l) then held + Pairs(m, l) else Pairs(m, l), EntriesFrom(Walk(m, l), Join(out)))
  {
    hide *;
    var ls := [l] + rest;
    assert ls[0] == l && ls[1..] == rest;
    BodyNext(ls, pend, a, b);
    NextPendIs(l, pend, a, b);
    GathersIs(m, pend, under, held, b);
    ApartHead(l, rest);
    LineClosed(m, l, pend, under, held, a, b, rest, out);
    if IsHeader(l) {
      var k := if under.Some? then Shift(m, W.BaseStem(b)) else m;
      assert pend + [l] + Body(rest, NextPend(l, pend, a, b), a, b) + Pending(rest, NextPend(l, pend, a, b), a, b) ==
        pend + ([l] + out);
      JoinConcat(pend, [l] + out);
      JoinCons(l, out);
      CopyReads(m, pend, under, held, b, l + Join(out));
      if under.Some? { HeaderFresh(m, k, l); }
      ReadLine(k, l, Join(out));
      PrefixedTwice(held, Pairs(m, l), EntriesFrom(Walk(m, l), Join(out)));
    } else {
      assert [l] + Body(rest, NextPend(l, pend, a, b), a, b) + Pending(rest, NextPend(l, pend, a, b), a, b) ==
        [l] + out;
      JoinCons(l, out);
      ReadLine(m, l, Join(out));
    }
  }

  /** Nothing is written behind a line that is left open. */
  lemma LineClosed(m: Mode, l: Bytes, pend: seq<Bytes>, under: Option<Bytes>, held: seq<Pair>, a: Bytes, b: Bytes,
                   rest: seq<Bytes>, out: seq<Bytes>)
    requires Gathers(m, pend, under, held, b) && Apart([l] + rest) && (UnderNow(m, l, under, a).Some? ==> Ended(l))
    requires out == Body(rest, NextPend(l, pend, a, b), a, b) + Pending(rest, NextPend(l, pend, a, b), a, b)
    ensures OneLine(l) && (l[|l| - 1] == LF || Join(out) == [])
  {
    hide *;
    ApartHead(l, rest);
    ApartOne(l, rest);
    EndedIs(l);
    UnderNowIs(m, l, under, a);
    NextPendIs(l, pend, a, b);
    GathersIs(m, pend, under, held, b);
    HitHeader(l, a);
    if l[|l| - 1] != LF {
      BodyNext(rest, [], a, b);
      JoinEmpty();
      assert out == [] + [];
    }
  }

  lemma ApartOne(l: Bytes, rest: seq<Bytes>)
    requires Apart([l] + rest)
    ensures OneLine(l)
  {
  }

  /**
   Copying the sections `a` to `b` in a file that parses, in which they begin and end between items and are
   `Copyable`: what is written holds the entries of the file in order, each section of `a` followed by the entries on
   the lines behind its header, under the section `b`. What stands on the header's own line is not copied.
   */
  lemma CopiedEntries(text: Bytes, a: Bytes, b: Bytes)
    requires Entries(text).Some? && Steady(INIT, Lines(text), false, a) && Copyable(INIT, Lines(text), false, a)
    requires W.BaseOk(b) && Renamable(b) && Outcome(text, a, Some(b), true).Done?
    ensures Entries(Outcome(text, a, Some(b), true).out) == Doubled(INIT, Lines(text), None, [], a, W.BaseStem(b).name)
  {
    hide *;
    var ls := Lines(text);
    JoinLines(text);
    CopyOutcome(text, a, b);
    EntriesAre(text);
    GathersIs(INIT, [], None, [], b);
    CopiedFrom(INIT, ls, [], None, [], a, b);
    EntriesAre(Join(Body(ls, [], a, b) + Pending(ls, [], a, b)));
  }
}

/**
 Setting a key the file does not hold yet, and the exact condition under which any set
 can be read back.
 */
module ConfigFresh {
  import opened Bytes
  import opened ConfigGrammar
  import opened ConfigScan
  import opened ConfigFacts
  import opened ConfigKey
  import opened ConfigWriter
  import opened ConfigEdit
  import opened ConfigMeaning
  import opened Optional

  // ---- the end of the file -----------------------------------------------------------------------

  /** The last value goes on into a line that is not there: a trailing `\`, or one before the last line end. */
  predicate Dangling(text: Bytes) {
    var m := ModeAt(text, |text|);
    m.ValueEscape? || (m.Value? && text != [] && text[|text| - 1] == LF)
  }

  /** The text with its last line closed. */
  function Closed(text: Bytes): Bytes {
    if text != [] && text[|text| - 1] != LF then text + [LF] else text
  }

  /** The section in force at the end of a text that parses. */
  function EndStem(m: Mode): Stem {
    if TopLike(m) then AsTop(m).stem
    else if m.Name? || m.NameSpace? || m.Value? || m.ValueEscape? then m.stem
    else NO_STEM
  }

  lemma LineEndCloses(k: Mode, m: Mode)
    requires ModeOk(k) && (m == k || m == Delta(k, CR)) && Finish(m).Some? && !m.ValueEscape?
    ensures Delta(k, LF) == Top(EndStem(m), false) && PairOf(k, LF) == Finish(m).value
  {
    if k.Value? {
      assert (k.acc + [CR])[..|k.acc|] == k.acc && (k.acc + [CR])[..k.trim] == k.acc[..k.trim];
    }
  }

  lemma AfterLineEnd(k: Mode)
    requires Finish(Delta(k, LF)).Some? && !Delta(k, LF).Value?
    ensures Quiet(Delta(k, LF)) && Finish(Delta(k, LF)) == Some([])
    ensures EndStem(Delta(k, LF)) == StemOf(Delta(k, LF))
  {
  }

  /** The text before its last byte, or before a final CR LF or CR, whichever keeps characters whole. */
  lemma LastCharacter(text: Bytes) returns (head: Bytes)
    requires text != []
    ensures text[|text| - 1] == LF ==>
      ModeAt(text, |text|) == Delta(Walk(INIT, head), LF) &&
      PairsBefore(text, |text|) == Pairs(INIT, head) + PairOf(Walk(INIT, head), LF)
    ensures text[|text| - 1] == CR ==>
      && ModeAt(text, |text|) == Delta(Walk(INIT, head), CR)
      && PairsBefore(text, |text|) == Pairs(INIT, head) + PairOf(Walk(INIT, head), CR)
      && Walk(INIT, text + [LF]) == Delta(Walk(INIT, head), LF)
      && Pairs(INIT, text + [LF]) == Pairs(INIT, head) + PairOf(Walk(INIT, head), LF)
  {
    hide Delta, PairOf;
    var n := |text|;
    assert text[..n] == text;
    if text[n - 1] == LF && n > 1 && text[n - 2] == CR {
      head := text[..n - 2];
      CrLf(INIT, head);
      assert text == head + [CR, LF];
    } else {
      head := text[..n - 1];
      assert text == head + [text[n - 1]];
      WalkConcat(INIT, head, [text[n - 1]]);
      WalkOne(Walk(INIT, head), text[n - 1]);
      if text[n - 1] == CR {
        CrLf(INIT, head);
        assert text + [LF] == head + [CR, LF];
      }
    }
  }

  lemma CrLf(m: Mode, head: Bytes)
    ensures Walk(m, head + [CR, LF]) == Delta(Walk(m, head), LF)
    ensures Pairs(m, head + [CR, LF]) == Pairs(m, head) + PairOf(Walk(m, head), LF)
  {
    hide Delta, PairOf;
    var k := Walk(m, head);
    WalkConcat(m, head, [CR, LF]);
    assert CharAt([CR, LF]) == LF && CharLen([CR, LF]) == 2 && [CR, LF][2..] == [];
    WalkUnfold(k, [CR, LF]);
    WalkNothing(Delta(k, LF));
    assert PairOf(k, LF) + [] == PairOf(k, LF);
  }

  /** A text that parses and does not dangle is closed by a line end without a change of meaning. */
  lemma CloseEnd(text: Bytes)
    requires Entries(text).Some? && text != [] && !Dangling(text)
    ensures Quiet(Walk(INIT, Closed(text)))
    ensures Pairs(INIT, Closed(text)) == Entries(text).value
    ensures StemOf(Walk(INIT, Closed(text))) == EndStem(ModeAt(text, |text|))
  {
    var m, last := ModeAt(text, |text|), text[|text| - 1];
    EntriesSplit(text);
    var head := LastCharacter(text);
    var k := Walk(INIT, head);
    if last == LF {
      AfterLineEnd(k);
      hide *;
      assert text[..|text|] == text;
      ModeWhole(text);
      NothingAdded(PairsBefore(text, |text|));
    } else if last == CR {
      WalkOk(INIT, head);
      LineEndCloses(k, m);
      CrSilent(k);
      NothingAdded(Pairs(INIT, head));
      TopQuiet(EndStem(m));
    } else {
      ModeWhole(text);
      WalkOk(INIT, text);
      LineEndCloses(m, m);
      WalkConcat(INIT, text, [LF]);
      WalkOne(m, LF);
      TopQuiet(EndStem(m));
    }
  }

  lemma CrSilent(k: Mode)
    ensures PairOf(k, CR) == []
  {
  }

  lemma ModeWhole(text: Bytes)
    ensures ModeAt(text, |text|) == Walk(INIT, text) && PairsBefore(text, |text|) == Pairs(INIT, text)
  {
    assert text[..|text|] == text;
  }

  lemma EntriesSplit(text: Bytes)
    requires Entries(text).Some?
    ensures Finish(ModeAt(text, |text|)).Some?
    ensures Entries(text).value == PairsBefore(text, |text|) + Finish(ModeAt(text, |text|)).value
  {
    ModeWhole(text);
  }

  // ---- where the line goes ---------------------------------------------------------------------------

  /** Where a key that was not seen is inserted. */
  ghost function InsertAt(s: StoreState, text: Bytes): (p: nat)
    requires Usable(Placed(s), text) && !s.keySeen && s.seenNr == 0
    ensures p <= |text|
  {
    WithLineEnd(text, Placed(s).parsed[Placed(s).seen[0]].end)
  }

  /** The section an anchor leaves in force. */
  function AnchorStem(text: Bytes, e: Parsed): Stem
    requires e.begin < |text|
  {
    if e.ty == Section && ItemAt(text, e.begin).mode.Top? then ItemAt(text, e.begin).mode.stem
    else StemAt(text, e.begin)
  }

  /** The section the new line will be read under. */
  ghost function InsertStem(s: StoreState, text: Bytes, base: Bytes): Stem
    requires Usable(Placed(s), text) && !s.keySeen && s.seenNr == 0
  {
    if !s.sectionSeen then BaseStem(base)
    else
      var e := Placed(s).parsed[Placed(s).seen[0]];
      if e.begin < |text| then AnchorStem(text, e) else NO_STEM
  }

  lemma FreshFacts(q: RawQuery, text: Bytes, s: StoreState)
    requires FinalGood(q, text, s) && !s.keySeen
    ensures s.seenNr == 0 && s.parsedNr <= |s.parsed| && s.seenTouched == s.sectionSeen
    ensures forall k :: 0 <= k < s.parsedNr ==> !Matched(q, text, s.parsed[k])
    ensures s.sectionSeen ==> |s.seen| == 1 && s.seen[0] < s.parsedNr && Anchor(q, text, s.parsed[s.seen[0]])
    ensures forall k :: 0 <= k < s.parsedNr && (s.sectionSeen ==> |s.seen| == 1 && s.seen[0] < k) ==>
      !Anchor(q, text, s.parsed[k])
    ensures s.parsedNr == 0 ==> s == EMPTY_STORE.(previousOffset := |text|)
  {
    hide Tiled, Matched, Anchor, ModeAt;
  }

  lemma OneCut(s: StoreState, text: Bytes)
    requires Usable(Placed(s), text) && !s.keySeen && s.seenNr == 0
    ensures var p := InsertAt(s, text);
      Spliced(Placed(s), text, false, 0, 0) == (Copied(text, 0, p), p)
  {
    var t := Placed(s);
    var p := InsertAt(s, text);
    assert CutAt(t, text, false, 0) == Cut(p, p, 1);
    SplicedDone(t, text, false, 1, p);
    assert Copied(text, 0, p) + [] == Copied(text, 0, p);
  }

  lemma AnchorEnds(q: RawQuery, text: Bytes, e: Parsed)
    requires SpanOk(q, text, e) && Anchor(q, text, e)
    ensures e.begin < |text|
    ensures if TopLike(ModeAt(text, e.end)) then ModeAt(text, e.end) == Top(AnchorStem(text, e), false)
      else e.end == |text|
    ensures EndStem(ModeAt(text, e.end)) == AnchorStem(text, e)
  {
    SpanAfter(q, text, e);
    if e.ty == Entry {
      EntryMode(text, e.begin);
      if !TopLike(ModeAt(text, e.end)) { EntryAtEnd(q, text, e); }
    } else {
      HeaderMode(text, e.begin);
    }
  }

  /** An entry the end of the text cuts short is still being read under its section. */
  lemma EntryAtEnd(q: RawQuery, text: Bytes, e: Parsed)
    requires SpanOk(q, text, e) && e.ty == Entry && e.end == |text| && !TopLike(ModeAt(text, |text|))
    ensures EndStem(ModeAt(text, |text|)) == StemAt(text, e.begin)
  {
    hide *;
    var b := e.begin;
    EntryOpens(q, text, e);
    ModeOn(text, b + 1, |text|);
    assert text[b + 1..|text|] == text[b + 1..];
    ItemOn(text, b);
    ItemEndIs(text, b);
    StillEntry(Delta(ModeAt(text, b), text[b]), StemAt(text, b), text[b + 1..]);
  }

  lemma ItemEndIs(text: Bytes, b: nat)
    requires b < |text|
    ensures ItemEnd(text, b) == b + 1 + ItemAt(text, b).len
    ensures ItemAt(text, b) == ToTop(Delta(ModeAt(text, b), text[b]), text[b + 1..])
  {
  }

  lemma EntryOpens(q: RawQuery, text: Bytes, e: Parsed)
    requires SpanOk(q, text, e) && e.ty == Entry
    ensures var b := e.begin;
      && b < |text| && Quiet(ModeAt(text, b)) && IsAlpha(text[b]) && !ItemAt(text, b).mode.Failed?
      && InEntry(Delta(ModeAt(text, b), text[b]), StemAt(text, b))
      && ModeAt(text, b + 1) == Delta(ModeAt(text, b), text[b]) && Whole(text, b + 1)
      && (e.end == |text| && !TopLike(ModeAt(text, |text|)) ==> ItemEnd(text, b) == |text|)
  {
    var b := e.begin;
    EntryMode(text, b);
    WalkOk(INIT, text[..b]);
    DeltaOk(ModeAt(text, b), text[b]);
    assert CharAt(text[b..]) == text[b] && CharLen(text[b..]) == 1;
    ModeChar(text, b);
  }

  /** Until it is over, an entry stays under its section. */
  lemma {:induction false} StillEntry(m: Mode, stem: Stem, r: Bytes)
    requires InEntry(m, stem) && ToTop(m, r).len == |r| && !ToTop(m, r).mode.Failed?
    ensures TopLike(Walk(m, r)) || EndStem(Walk(m, r)) == stem
    decreases |r|
  {
    if r != [] {
      var c, n := CharAt(r), CharLen(r);
      EntryChar(m, stem, c);
      ItemTakes(m, r, c, n);
      WalkUnfold(m, r);
      var m1 := Delta(m, c);
      if InEntry(m1, stem) {
        StillEntry(m1, stem, r[n..]);
      } else {
        TopIsTopLike(m1);
        ToTopDone(m1, r[n..]);
        WalkNothing(m1);
        assert r[n..] == [];
      }
    } else {
      WalkNothing(m);
    }
  }

  lemma LineEndBehind(text: Bytes, x: nat)
    requires x < |text| && ModeAt(text, x).Top? && !ModeAt(text, x).comment && text[x] == LF
    ensures ModeAt(text, x + 1) == ModeAt(text, x) && PairsBefore(text, x + 1) == PairsBefore(text, x)
  {
    ModeOn(text, x, x + 1);
    assert text[x..x + 1] == [LF];
    LineEndAtTop(ModeAt(text, x));
    NothingAdded(PairsBefore(text, x));
  }

  lemma InsertPoint(q: RawQuery, text: Bytes, s: StoreState)
    requires FinalGood(q, text, s) && !s.keySeen && s.seenNr == 0 && s.parsedNr > 0 && Usable(Placed(s), text)
    ensures var p := InsertAt(s, text);
      && 0 < p <= |text|
      && (!s.sectionSeen ==> p == |text|)
      && (s.sectionSeen ==> EndStem(ModeAt(text, p)) == InsertStem(s, text, []))
      && (s.sectionSeen && p < |text| ==> ModeAt(text, p) == Top(InsertStem(s, text, []), false))
  {
    hide ModeAt, ItemAt, StemAt, FinalGood, SpanOk, AnchorStem, Anchor, Matched, Usable;
    FreshFacts(q, text, s);
    var j := Placed(s).seen[0];
    EventAt(q, text, s, j);
    var e := s.parsed[j];
    if !s.sectionSeen {
      EndStart(s, text);
    } else {
      AnchorEnds(q, text, e);
      if WithLineEnd(text, e.end) != e.end {
        LineEndBehind(text, e.end);
      }
    }
  }

  /** The file up to the insertion point, closed by a line end, means what it meant. */
  lemma FreshCopy(q: RawQuery, text: Bytes, s: StoreState)
    requires FinalGood(q, text, s) && Entries(text).Some? && !s.keySeen && s.seenNr == 0 && s.parsedNr > 0
    requires Usable(Placed(s), text) && (InsertAt(s, text) == |text| ==> !Dangling(text))
    ensures var p, m := InsertAt(s, text), Walk(INIT, Copied(text, 0, InsertAt(s, text)));
      && 0 < p <= |text| && Quiet(m) && Pairs(INIT, Copied(text, 0, p)) == UpTo(text, p)
      && (s.sectionSeen ==> StemOf(m) == InsertStem(s, text, []))
      && (!s.sectionSeen ==> p == |text|)
      && (p < |text| ==> Quiet(ModeAt(text, p)) && StemAt(text, p) == StemOf(m))
  {
    hide *;
    InsertPoint(q, text, s);
    var p := InsertAt(s, text);
    if p == |text| {
      CloseEnd(text);
      UpToEnd(text);
      CopiedAll(text);
    } else {
      var stem := InsertStem(s, text, []);
      TopQuiet(stem);
      TopIsTopLike(Top(stem, false));
      AtTheStart(q, text, s);
      CopyPiece(q, text, [], 0, p);
      WalkNothing(INIT);
      StemIs(text, p);
      UpToTop(text, p);
      StartIs(text);
      assert [] + Copied(text, 0, p) == Copied(text, 0, p);
    }
  }

  lemma StartIs(text: Bytes)
    ensures ModeAt(text, 0) == INIT && PairsBefore(text, 0) == [] && Pairs(INIT, []) == []
  {
    assert text[..0] == [];
  }

  lemma CopiedAll(text: Bytes)
    ensures Copied(text, 0, |text|) == Closed(text)
  {
    assert text[0..|text|] == text;
  }

  // ---- the new entry ------------------------------------------------------------------------------------

  /** What a set that inserts writes before its new line, and what is read behind it. */
  lemma SetFreshParts(q: Query, key: Bytes, text: Bytes, s: StoreState, v: Bytes, comment: Option<Bytes>)
      returns (out: Bytes, rest: seq<Pair>)
    requires Scan(q, text) == Some(s) && !s.keySeen && s.seenNr == 0 && Usable(Placed(s), text) && Entries(text).Some?
    requires WellFormedKey(key, q.baselen)
    requires text != BOM && (InsertAt(s, text) == |text| ==> !Dangling(text))
    ensures q.baselen < |key|
    ensures var p, stem := InsertAt(s, text), InsertStem(s, text, key[..q.baselen]);
      && Quiet(Walk(INIT, out)) && StemOf(Walk(INIT, out)) == stem
      && Pairs(INIT, out) == UpTo(text, p) && Entries(text).value == UpTo(text, p) + rest
      && EntriesFrom(Top(stem, false), text[p..]) == Some(rest)
      && out == Copied(text, 0, p) + (if s.sectionSeen then [] else SectionLine(key[..q.baselen]))
      && Edited(s, text, key, q.baselen, Some(v), comment) ==
        out + (PairLine(key[q.baselen + 1..], v, comment) + text[p..])
  {
    hide *;
    ScanGood(q, text);
    CanonicalName(key, q.baselen);
    FreshFacts(q, text, s);
    var b, p := q.baselen, InsertAt(s, text);
    var base, name, copy := key[..b], key[b + 1..], Copied(text, 0, p);
    var tail := PairLine(name, v, comment) + text[p..];
    OneCut(s, text);
    EditedFresh(s, text, key, b, v, comment);
    SameStem(s, text, base);
    if s.parsedNr == 0 {
      NothingThere(q, text, s);
      rest := [];
    } else {
      FreshCopy(q, text, s);
      TopQuiet(StemOf(Walk(INIT, copy)));
      rest := RestReads(text, p, Top(StemOf(Walk(INIT, copy)), false));
      if p == |text| {
        NothingLeft(Top(StemOf(Walk(INIT, copy)), false));
        assert text[p..] == [];
      }
    }
    if s.sectionSeen {
      out := copy;
      assert copy + [] == copy;
    } else {
      out := copy + SectionLine(base);
      assert copy + (SectionLine(base) + tail) == out + tail;
      QuietTop(Walk(INIT, copy));
      HeaderReads(Walk(INIT, copy), base);
      WalkConcatTop(INIT, copy, SectionLine(base));
      NothingAdded(Pairs(INIT, copy));
      TopQuiet(BaseStem(base));
      AtEndEmpty(text, p, rest, BaseStem(base));
    }
  }

  /** The entries of a set that inserts: the old ones, and the new one between what lay before and after. */
  lemma SetFresh(q: Query, key: Bytes, text: Bytes, s: StoreState, v: Bytes, comment: Option<Bytes>)
      returns (rest: seq<Pair>)
    requires Scan(q, text) == Some(s) && !s.keySeen && s.seenNr == 0 && Usable(Placed(s), text) && Entries(text).Some?
    requires WellFormedKey(key, q.baselen) && CommentOk(comment)
    requires text != BOM && (InsertAt(s, text) == |text| ==> !Dangling(text))
    ensures InsertAt(s, text) <= |text| && Entries(text).value == UpTo(text, InsertAt(s, text)) + rest
    ensures Entries(Edited(s, text, key, q.baselen, Some(v), comment)) == Some(UpTo(text, InsertAt(s, text)) +
      ([Pair(InsertStem(s, text, key[..q.baselen]).name + LowerAll(key[q.baselen + 1..]), Some(ReadBack(v)))] + rest))
  {
    hide *;
    var out, r := SetFreshParts(q, key, text, s, v, comment);
    rest := r;
    CanonicalName(key, q.baselen);
    var name, p, stem := key[q.baselen + 1..], InsertAt(s, text), InsertStem(s, text, key[..q.baselen]);
    QuietTop(Walk(INIT, out));
    NewLineReads(Walk(INIT, out), name, v, comment, text[p..], rest);
    EntriesBehind(out, PairLine(name, v, comment) + text[p..],
      [Pair(stem.name + LowerAll(name), Some(ReadBack(v)))] + rest);
  }

  lemma AtEndEmpty(text: Bytes, p: nat, rest: seq<Pair>, stem: Stem)
    requires p == |text| || text == []
    requires p <= |text| && rest == []
    ensures text[p..] == [] && EntriesFrom(Top(stem, false), text[p..]) == Some(rest)
  {
    TopQuiet(stem);
    NothingLeft(Top(stem, false));
  }

  lemma PrefixedNothing(r: Option<seq<Pair>>)
    ensures Prefixed([], r) == r
  {
    if r.Some? { assert [] + r.value == r.value; }
  }

  lemma SameStem(s: StoreState, text: Bytes, base: Bytes)
    requires Usable(Placed(s), text) && !s.keySeen && s.seenNr == 0
    ensures InsertStem(s, text, base) == if s.sectionSeen then InsertStem(s, text, []) else BaseStem(base)
  {
  }

  lemma EditedFresh(s: StoreState, text: Bytes, key: Bytes, b: nat, v: Bytes, comment: Option<Bytes>)
    requires b < |key| && Usable(Placed(s), text)
    ensures var r, tail := Spliced(Placed(s), text, false, 0, 0), PairLine(key[b + 1..], v, comment);
      Edited(s, text, key, b, Some(v), comment) ==
        r.0 + if s.sectionSeen then tail + text[r.1..] else SectionLine(key[..b]) + (tail + text[r.1..])
  {
    hide Spliced, PairLine, SectionLine, Usable;
  }

  /** A file without a single event. */
  lemma NothingThere(q: RawQuery, text: Bytes, s: StoreState)
    requires FinalGood(q, text, s) && s.parsedNr == 0 && Entries(text).Some?
    requires text != BOM && Usable(Placed(s), text) && !s.keySeen && s.seenNr == 0
    ensures text == [] && !s.sectionSeen && InsertAt(s, text) == 0
    ensures Quiet(Walk(INIT, Copied(text, 0, 0))) && Pairs(INIT, Copied(text, 0, 0)) == [] == UpTo(text, 0)
    ensures Entries(text) == Some([])
  {
    NoEvents(q, text, s);
    assert Copied(text, 0, 0) == [];
    NothingBefore(text);
    UpToEnd(text);
  }

  // ---- when it goes wrong ---------------------------------------------------------------------------------

  /** A value that has read at least `n` bytes it will keep. */
  predicate Grown(m: Mode, n: nat) {
    (m.Value? && |m.acc| >= n && (m.trim == 0 || m.trim >= n)) || (m.ValueEscape? && |m.acc| >= n)
  }

  lemma GrownChar(m: Mode, n: nat, c: Byte)
    requires Grown(m, n)
    ensures Grown(Delta(m, c), n) || Delta(m, c).Failed? || Delta(m, c).Top?
    ensures Grown(Delta(m, c), n) ==> PairOf(m, c) == []
    ensures Delta(m, c).Top? ==>
      |PairOf(m, c)| == 1 && PairOf(m, c)[0].value.Some? && |PairOf(m, c)[0].value.value| >= n
    ensures PairOf(m, c) != [] ==> Delta(m, c).Top?
  {
  }

  lemma EntriesUnfold(m: Mode, r: Bytes)
    requires r != []
    ensures EntriesFrom(m, r) == Prefixed(PairOf(m, CharAt(r)), EntriesFrom(Delta(m, CharAt(r)), r[CharLen(r)..]))
  {
    hide Delta, PairOf, Walk, Pairs;
    WalkUnfold(m, r);
    var m1, rest := Delta(m, CharAt(r)), r[CharLen(r)..];
    match Finish(Walk(m1, rest))
    case None =>
    case Some(last) => Assoc(PairOf(m, CharAt(r)), Pairs(m1, rest), last);
  }

  lemma FinishUnfold(m: Mode)
    ensures Delta(m, LF).Top? ==> Finish(m) == Some(PairOf(m, LF))
    ensures Delta(m, LF).Failed? ==> Finish(m) == None || TopLike(m)
    ensures m.ValueEscape? && Finish(m).Some? ==>
      Finish(m) == Some(PairOf(Delta(m, LF), LF)) && Delta(Delta(m, LF), LF).Top?
  {
  }

  /** Whatever follows, a value never gets shorter than what it has read. */
  lemma {:induction false} GrownValue(m: Mode, n: nat, r: Bytes)
    requires Grown(m, n) && EntriesFrom(m, r).Some?
    ensures EntriesFrom(m, r).value != [] && EntriesFrom(m, r).value[0].value.Some?
    ensures |EntriesFrom(m, r).value[0].value.value| >= n
    decreases |r|
  {
    if r == [] {
      WalkNothing(m);
      GrownChar(m, n, LF);
      if Grown(Delta(m, LF), n) { GrownChar(Delta(m, LF), n, LF); }
      FinishUnfold(m);
    } else {
      var c := CharAt(r);
      GrownChar(m, n, c);
      EntriesUnfold(m, r);
      if Grown(Delta(m, c), n) {
        GrownValue(Delta(m, c), n, r[CharLen(r)..]);
        PrefixedNothing(EntriesFrom(Delta(m, c), r[CharLen(r)..]));
      } else if Delta(m, c).Failed? {
        WalkFailed(r[CharLen(r)..]);
      }
    }
  }

  /** The mode a dangling text is left in once its line is closed, and the value it holds. */
  lemma DanglingEnd(text: Bytes)
    requires Entries(text).Some? && Dangling(text)
    ensures var m := Walk(INIT, Closed(text));
      && m.Value? && m.trim == 0 && !m.quote && !m.hash
      && Entries(text).value == Pairs(INIT, Closed(text)) + [Pair(m.key, Some(m.acc))]
      && Closed(text) != [] && Closed(text)[|Closed(text)| - 1] == LF
  {
    EntriesSplit(text);
    ModeWhole(text);
    var m := ModeAt(text, |text|);
    if text == [] { WalkNothing(INIT); }
    var last := text[|text| - 1];
    var head := LastCharacter(text);
    var k := Walk(INIT, head);
    if last == LF {
      OnlyEscapes(k);
    } else {
      EscapeNotCr(k);
      WalkConcat(INIT, text, [LF]);
      WalkOne(m, LF);
      EscapeEnd(m);
      NothingAdded(Pairs(INIT, text));
    }
  }

  lemma OnlyEscapes(k: Mode)
    ensures var m := Delta(k, LF);
      m.Value? && Finish(m).Some? ==>
        m.trim == 0 && !m.quote && !m.hash && Finish(m) == Some([Pair(m.key, Some(m.acc))])
    ensures !Delta(k, LF).ValueEscape?
  {
  }

  lemma EscapeNotCr(k: Mode)
    ensures !Delta(k, CR).ValueEscape?
  {
  }

  lemma EscapeEnd(m: Mode)
    requires m.ValueEscape? && Finish(m).Some?
    ensures Delta(m, LF) == Value(m.stem, m.key, false, false, 0, m.acc) && PairOf(m, LF) == []
    ensures Finish(m) == Some([Pair(m.key, Some(m.acc))])
  {
  }

  lemma GrowsByHeader(m: Mode, r: Bytes)
    requires m.Value? && m.trim == 0 && !m.quote && !m.hash && r != [] && r[0] == LBRACKET && EntriesFrom(m, r).Some?
    ensures EntriesFrom(m, r).value != [] && EntriesFrom(m, r).value[0] != Pair(m.key, Some(m.acc))
  {
    EntriesUnfold(m, r);
    PrefixedNothing(EntriesFrom(Delta(m, LBRACKET), r[1..]));
    GrownValue(Delta(m, LBRACKET), |m.acc| + 1, r[1..]);
  }

  lemma GrowsByLine(m: Mode, r: Bytes)
    requires m.Value? && m.trim == 0 && !m.quote && !m.hash && EntriesFrom(m, r).Some?
    requires |r| >= 2 && r[0] == TAB && IsAlpha(r[1])
    ensures EntriesFrom(m, r).value != [] && EntriesFrom(m, r).value[0] != Pair(m.key, Some(m.acc))
  {
    var m1 := Delta(m, TAB);
    var m2 := Delta(m1, r[1]);
    EntriesUnfold(m, r);
    PrefixedNothing(EntriesFrom(m1, r[1..]));
    EntriesUnfold(m1, r[1..]);
    PrefixedNothing(EntriesFrom(m2, r[1..][1..]));
    GrownValue(m2, |m.acc| + 1, r[1..][1..]);
  }

  /** The first byte or two of what an insertion adds. */
  lemma AddedStart(text: Bytes, s: StoreState, key: Bytes, b: nat, v: Bytes, comment: Option<Bytes>, p: nat)
    requires b < |key| && NameOk(key[b + 1..]) && p <= |text|
    ensures var tail := PairLine(key[b + 1..], v, comment);
      var added := if s.sectionSeen then tail + text[p..] else SectionLine(key[..b]) + (tail + text[p..]);
      && added != [] && added[0] != LF
      && if s.sectionSeen then |added| >= 2 && added[0] == TAB && IsAlpha(added[1]) else added[0] == LBRACKET
  {
    hide Encoded, Quotes, Trailer, Escaped;
  }

  /** Behind a dangling last value the old entries are not all read back. */
  lemma DanglingFails(q: Query, key: Bytes, text: Bytes, s: StoreState, v: Bytes, comment: Option<Bytes>)
    requires Scan(q, text) == Some(s) && !s.keySeen && s.seenNr == 0 && Usable(Placed(s), text) && Entries(text).Some?
    requires WellFormedKey(key, q.baselen) && InsertAt(s, text) == |text| && Dangling(text)
    ensures var es := Entries(Edited(s, text, key, q.baselen, Some(v), comment));
      es.None? || !(Entries(text).value <= es.value)
  {
    hide *;
    CanonicalName(key, q.baselen);
    OneCut(s, text);
    EditedFresh(s, text, key, q.baselen, v, comment);
    AddedStart(text, s, key, q.baselen, v, comment, |text|);
    CopiedAll(text);
    DanglingEnd(text);
    var tail := PairLine(key[q.baselen + 1..], v, comment) + text[|text|..];
    var added := if s.sectionSeen then tail else SectionLine(key[..q.baselen]) + tail;
    var m := Walk(INIT, Closed(text));
    SeamEntries(Closed(text), added);
    if EntriesFrom(m, added).Some? {
      if s.sectionSeen { GrowsByLine(m, added); } else { GrowsByHeader(m, added); }
      DifferAt(Pairs(INIT, Closed(text)), Pair(m.key, Some(m.acc)), EntriesFrom(m, added).value);
    } else {
      NonePrefixed(Pairs(INIT, Closed(text)));
    }
  }

  lemma NonePrefixed(ps: seq<Pair>)
    ensures Prefixed(ps, None) == None
  {
  }

  lemma SeamEntries(p: Bytes, r: Bytes)
    requires p != [] && p[|p| - 1] == LF
    ensures Entries(p + r) == Prefixed(Pairs(INIT, p), EntriesFrom(Walk(INIT, p), r))
  {
    hide Walk, Pairs;
    WalkConcat(INIT, p, r);
    match Finish(Walk(INIT, p + r))
    case None =>
    case Some(last) => Assoc(Pairs(INIT, p), Pairs(Walk(INIT, p), r), last);
  }

  lemma DifferAt(ps: seq<Pair>, x: Pair, r: seq<Pair>)
    requires r != [] && r[0] != x
    ensures Prefixed(ps, Some(r)) == Some(ps + r) && !(ps + [x] <= ps + r)
  {
    assert (ps + r)[|ps|] == r[0] && (ps + [x])[|ps|] == x;
  }

  lemma BomHasNoEvents(q: RawQuery, s: StoreState)
    requires FinalGood(q, BOM, s)
    ensures s.parsedNr == 0
  {
    if s.parsedNr > 0 {
      EventAt(q, BOM, s, 0);
      var e := s.parsed[0];
      BomModes();
    }
  }

  lemma BomModes()
    ensures ModeAt(BOM, 0) == Bom(0) && ModeAt(BOM, 1) == Bom(1) && ModeAt(BOM, 2) == Bom(2) && ModeAt(BOM, 3) == Bom(3)
    ensures BOM[0] == 0xEF && BOM[1] == 0xBB && BOM[2] == 0xBF
  {
    assert BOM[..0] == [] && BOM[..1] == [0xEF] && BOM[..2] == [0xEF] + [0xBB] && BOM[..3] == [0xEF] + [0xBB] + [0xBF];
    WalkNothing(INIT);
    WalkOne(Bom(0), 0xEF);
    WalkOne(Bom(1), 0xBB);
    WalkOne(Bom(2), 0xBF);
    WalkConcat(INIT, [0xEF], [0xBB]);
    WalkConcat(INIT, [0xEF] + [0xBB], [0xBF]);
  }

  /** A file that is only a byte-order mark has it moved behind the new lines, where it does not parse. */
  lemma BomFails(q: Query, key: Bytes, s: StoreState, v: Bytes, comment: Option<Bytes>)
    requires Scan(q, BOM) == Some(s) && WellFormedKey(key, q.baselen) && CommentOk(comment)
    ensures Usable(Placed(s), BOM) && !s.keySeen
    ensures Entries(Edited(s, BOM, key, q.baselen, Some(v), comment)) == None
  {
    hide *;
    ScanGood(q, BOM);
    ScanUsable(q, BOM);
    BomHasNoEvents(q, s);
    NoKeySeen(q, BOM, s);
    FreshFacts(q, BOM, s);
    CanonicalName(key, q.baselen);
    NoEventPlace(s, BOM);
    OneCut(s, BOM);
    EditedFresh(s, BOM, key, q.baselen, v, comment);
    var base, name := key[..q.baselen], key[q.baselen + 1..];
    MarkAtTop(BaseStem(base), PairLine(name, v, comment), SectionLine(base));
    HeaderReads(INIT, base);
    TopQuiet(BaseStem(base));
    AsTopStem(BaseStem(base));
    PairReads(Top(BaseStem(base), false), name, v, comment);
    assert BOM[0..] == BOM && [] + (SectionLine(base) + (PairLine(name, v, comment) + BOM)) ==
      SectionLine(base) + (PairLine(name, v, comment) + BOM);
    assert Edited(s, BOM, key, q.baselen, Some(v), comment) ==
      [] + (SectionLine(base) + (PairLine(name, v, comment) + BOM));
  }

  lemma NoKeySeen(q: RawQuery, text: Bytes, s: StoreState)
    requires FinalGood(q, text, s) && s.parsedNr == 0
    ensures !s.keySeen && s.seenNr == 0
  {
  }

  lemma NoEventPlace(s: StoreState, text: Bytes)
    requires s == EMPTY_STORE.(previousOffset := |text|) && Usable(Placed(s), text)
    ensures InsertAt(s, text) == 0 && Copied(text, 0, 0) == [] && !s.sectionSeen
  {
  }

  lemma MarkAtTop(stem: Stem, line: Bytes, header: Bytes)
    ensures Quiet(INIT)
    ensures Walk(INIT, header) == Top(stem, false) && Walk(Top(stem, false), line) == Top(stem, false) ==>
      Entries(header + (line + BOM)) == None
  {
    var t := Top(stem, false);
    if Walk(INIT, header) == t && Walk(t, line) == t {
      EntriesConcatTop(INIT, header, line + BOM);
      EntriesConcatTop(t, line, BOM);
      EntriesUnfold(t, BOM);
      assert CharAt(BOM) == 0xEF && Delta(t, 0xEF) == Failed;
      WalkFailed(BOM[CharLen(BOM)..]);
    }
  }

  // ---- the theorem --------------------------------------------------------------------------------------------

  /** What a set is for: the matches gone, one new entry in their place or behind the key's section. */
  ghost function Intended(q: Query, text: Bytes, s: StoreState, v: Bytes): seq<Pair>
    requires Usable(Placed(s), text) && (s.keySeen || s.seenNr == 0) && Entries(text).Some?
  {
    var es, p := Entries(text).value, Pair(q.key, Some(v));
    if s.keySeen then Replaced(q, es, p)
    else
      var before := UpTo(text, InsertAt(s, text));
      if before <= es then before + ([p] + es[|before|..]) else []
  }

  /** When the set does what it is for; every clause can be checked before the call. */
  ghost predicate Faithful(q: Query, text: Bytes, s: StoreState, v: Bytes)
    requires Usable(Placed(s), text) && (s.keySeen || s.seenNr == 0)
  {
    && Survives(v)
    && (!s.keySeen ==>
         && text != BOM
         && (InsertAt(s, text) == |text| ==> !Dangling(text))
         && (s.sectionSeen ==> InsertStem(s, text, []).name == q.key[..q.baselen + 1]))
  }

  lemma OnePairDiffers(a: seq<Pair>, p: Pair, r: Pair, b: seq<Pair>)
    ensures a + ([p] + b) == a + ([r] + b) <==> p == r
    ensures (a + [p] + b == a + [r] + b) <==> p == r
  {
    assert (a + ([p] + b))[|a|] == p && (a + ([r] + b))[|a|] == r;
    assert (a + [p] + b)[|a|] == p && (a + [r] + b)[|a|] == r;
  }

  lemma SameKey(q: Query, stem: Bytes, name: Bytes)
    requires q.key == q.key[..q.baselen + 1] + name
    ensures stem + name == q.key <==> stem == q.key[..q.baselen + 1]
  {
    if stem + name == q.key {
      assert |stem| == q.baselen + 1 && (stem + name)[..|stem|] == stem;
    }
  }

  lemma ReplacedExact(q: RawQuery, es: seq<Pair>, p: Pair, r: Pair)
    ensures Replaced(q, es, p) == Replaced(q, es, r) <==> p == r
  {
    hide Keep, AfterLast;
    OnePairDiffers(Keep(q, es[..AfterLast(q, es)]), p, r, es[AfterLast(q, es)..]);
  }

  /**
   Set, then read: for every file that parses, every pattern, value and comment, the file
   written reads back as intended exactly when the conditions of `Faithful` hold.
   */
  lemma SetThenRead(q: Query, key: Bytes, text: Bytes, s: StoreState, v: Bytes, comment: Option<Bytes>)
    requires Scan(q, text) == Some(s)
    requires WellFormedKey(key, q.baselen) && q.key == Canonical(key, q.baselen) && CommentOk(comment)
    ensures Usable(Placed(s), text) && Entries(text).Some? && (s.keySeen || s.seenNr == 0)
    ensures Entries(Edited(s, text, key, q.baselen, Some(v), comment)) == Some(Intended(q, text, s, v)) <==>
      Faithful(q, text, s, v)
  {
    ScanGood(q, text);
    ScanUsable(q, text);
    ScanParses(q, text);
    if s.keySeen {
      hide Entries, Usable, Edited, Survives, ReadBack, Replaced, Scan, FinalGood;
      SetSeen(q, key, text, s, v, comment);
      ReadBackExact(v);
      ReplacedExact(q, Entries(text).value, Pair(q.key, Some(v)), Pair(q.key, Some(ReadBack(v))));
    } else {
      FreshFacts(q, text, s);
      hide Entries, Usable, Edited, Survives, ReadBack, Scan, FinalGood, InsertAt, InsertStem, UpTo, Dangling,
        Canonical, WellFormedKey;
      CanonicalName(key, q.baselen);
      if text == BOM {
        BomFails(q, key, s, v, comment);
      } else if InsertAt(s, text) == |text| && Dangling(text) {
        DanglingFails(q, key, text, s, v, comment);
        UpToEnd(text);
        PrefixOf(Entries(text).value, [Pair(q.key, Some(v))]);
      } else {
        FreshExact(q, key, text, s, v, comment);
      }
    }
  }

  /** The same for a comment as the user gives it: any without a line end is made into one that stays a comment. */
  lemma SetWithComment(q: Query, key: Bytes, text: Bytes, s: StoreState, v: Bytes, c: Bytes)
    requires Scan(q, text) == Some(s) && LF !in c
    requires WellFormedKey(key, q.baselen) && q.key == Canonical(key, q.baselen)
    ensures Usable(Placed(s), text) && Entries(text).Some? && (s.keySeen || s.seenNr == 0) && PrepareComment(c).Some?
    ensures Entries(Edited(s, text, key, q.baselen, Some(v), PrepareComment(c))) == Some(Intended(q, text, s, v)) <==>
      Faithful(q, text, s, v)
  {
    hide *;
    SetThenRead(q, key, text, s, v, PrepareComment(c));
  }

  lemma PrefixOf(a: seq<Pair>, b: seq<Pair>)
    ensures a <= a + b && a <= a && a[|a|..] == [] && b + [] == b
  {
  }

  lemma FreshExact(q: Query, key: Bytes, text: Bytes, s: StoreState, v: Bytes, comment: Option<Bytes>)
    requires Scan(q, text) == Some(s) && !s.keySeen && s.seenNr == 0 && Usable(Placed(s), text) && Entries(text).Some?
    requires WellFormedKey(key, q.baselen) && q.key == Canonical(key, q.baselen) && CommentOk(comment)
    requires text != BOM && (InsertAt(s, text) == |text| ==> !Dangling(text))
    ensures Entries(Edited(s, text, key, q.baselen, Some(v), comment)) == Some(Intended(q, text, s, v)) <==>
      Survives(v) && (s.sectionSeen ==> InsertStem(s, text, []).name == q.key[..q.baselen + 1])
  {
    hide Entries, Usable, Edited, Survives, ReadBack, Scan, InsertAt, InsertStem, UpTo, Dangling, Canonical,
      WellFormedKey, BaseStem, LowerAll;
    var rest := SetFresh(q, key, text, s, v, comment);
    var before, name, base := UpTo(text, InsertAt(s, text)), LowerAll(key[q.baselen + 1..]), key[..q.baselen];
    CanonicalName(key, q.baselen);
    ReadBackExact(v);
    SameStem(s, text, base);
    var stem := InsertStem(s, text, base).name;
    SameKey(q, stem, name);
    assert (before + rest)[|before|..] == rest;
    OnePairDiffers(before, Pair(q.key, Some(v)), Pair(stem + name, Some(ReadBack(v))), rest);
  }
}

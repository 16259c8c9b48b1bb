/**
 What an edit does to the meaning of a file: reparse what was written, and compare the
 entries with those of the file before.
 */
module ConfigMeaning {
  import opened Bytes
  import opened ConfigGrammar
  import opened ConfigScan
  import opened ConfigFacts
  import opened ConfigKey
  import opened ConfigWriter
  import opened ConfigEdit
  import opened Optional

  /** The entries that do not match. */
  function Keep(q: RawQuery, es: seq<Pair>): seq<Pair> {
    if es == [] then []
    else if q.Matches(es[0]) then Keep(q, es[1..])
    else [es[0]] + Keep(q, es[1..])
  }

  lemma {:induction false} KeepConcat(q: RawQuery, a: seq<Pair>, b: seq<Pair>)
    ensures Keep(q, a + b) == Keep(q, a) + Keep(q, b)
    decreases |a|
  {
    if a == [] {
      assert a + b == b;
    } else {
      assert (a + b)[1..] == a[1..] + b;
      KeepConcat(q, a[1..], b);
    }
  }

  lemma KeepOne(q: RawQuery, p: Pair)
    ensures Keep(q, [p]) == if q.Matches(p) then [] else [p]
  {
    assert [p][1..] == [];
  }

  /** The entries of the text up to `p`, read as a file of its own. */
  function UpTo(text: Bytes, p: nat): seq<Pair>
    requires p <= |text|
  {
    PairsBefore(text, p) + match Finish(ModeAt(text, p)) case None => [] case Some(last) => last
  }

  lemma UpToTop(text: Bytes, p: nat)
    requires p <= |text| && TopLike(ModeAt(text, p))
    ensures UpTo(text, p) == PairsBefore(text, p)
  {
    assert Finish(ModeAt(text, p)) == Some([]);
  }

  lemma UpToEnd(text: Bytes)
    requires Entries(text).Some?
    ensures UpTo(text, |text|) == Entries(text).value
  {
    assert text[..|text|] == text;
  }

  function EventPairs(text: Bytes, e: Parsed): seq<Pair>
    requires e.begin < |text|
  {
    if e.ty == Entry then ItemAt(text, e.begin).pairs else []
  }

  /** The text of one event, read from where it begins. */
  lemma SpanAfter(q: RawQuery, text: Bytes, e: Parsed)
    requires SpanOk(q, text, e)
    ensures UpTo(text, e.end) == UpTo(text, e.begin) + EventPairs(text, e)
    ensures TopLike(ModeAt(text, e.end)) || (e.ty == Entry && e.end == |text|)
    ensures TopLike(ModeAt(text, e.end)) && (e.ty == Entry || e.ty == Whitespace) ==>
      ModeAt(text, e.end) == Top(StemAt(text, e.begin), false)
    ensures e.ty == Section ==> ModeAt(text, e.end) == ItemAt(text, e.begin).mode
  {
    UpToTop(text, e.begin);
    if e.ty == Entry || e.ty == Section {
      var x, t := ItemEnd(text, e.begin), ItemAt(text, e.begin);
      ItemOn(text, e.begin);
      if e.ty == Section { HeaderMode(text, e.begin); }
      hide ModeAt, PairsBefore, ItemAt, Delta, PairOf, ItemEnd;
      assert x <= |text|;
      if e.end == x {
        if TopLike(ModeAt(text, x)) { UpToTop(text, x); }
      } else {
        UpToTop(text, x);
        CrAfter(text, x);
        UpToTop(text, x + 1);
      }
    } else {
      hide ModeAt, PairsBefore;
      UpToTop(text, e.end);
      NothingAdded(PairsBefore(text, e.begin));
    }
    hide ModeAt, PairsBefore, ItemAt, UpTo;
    NothingAdded(UpTo(text, e.begin));
  }

  lemma CrAfter(text: Bytes, x: nat)
    requires x < |text| && text[x] == CR && ModeAt(text, x).Top?
    ensures ModeAt(text, x + 1) == ModeAt(text, x) && PairsBefore(text, x + 1) == PairsBefore(text, x)
  {
    ModeOn(text, x, x + 1);
    assert text[x..x + 1] == [CR];
    WalkOne(ModeAt(text, x), CR);
    CrOnTop(ModeAt(text, x));
    NothingAdded(PairsBefore(text, x));
  }

  // ---- runs of events -------------------------------------------------------------------------

  /** Where event `k` begins; past the last one, the end of the text. */
  function Start(s: StoreState, text: Bytes, k: nat): nat
    requires k <= s.parsedNr <= |s.parsed|
  {
    if k < s.parsedNr then s.parsed[k].begin else |text|
  }

  lemma EventAt(q: RawQuery, text: Bytes, s: StoreState, k: nat)
    requires FinalGood(q, text, s) && k < s.parsedNr
    ensures s.parsedNr <= |s.parsed| && SpanOk(q, text, s.parsed[k])
    ensures s.parsed[k].end == Start(s, text, k + 1) <= |text|
    ensures s.parsed[k].begin == Start(s, text, k) < s.parsed[k].end
  {
    hide SpanOk, SeenOk, PairsBefore, ModeAt;
    var spans := s.parsed[..s.parsedNr];
    assert spans[k] == s.parsed[k] && SpanOk(q, text, spans[k]);
    if k + 1 < s.parsedNr {
      assert spans[k].end == spans[k + 1].begin && spans[k + 1] == s.parsed[k + 1];
    } else {
      assert spans[|spans| - 1] == s.parsed[k];
    }
    SpanBounds(q, text, s.parsed[k]);
  }

  lemma SpanBounds(q: RawQuery, text: Bytes, e: Parsed)
    requires SpanOk(q, text, e)
    ensures e.begin < e.end <= |text|
  {
  }

  lemma StartBound(q: RawQuery, text: Bytes, s: StoreState, k: nat)
    requires FinalGood(q, text, s) && k <= s.parsedNr
    ensures k <= s.parsedNr <= |s.parsed| && Start(s, text, k) <= |text|
  {
    if k < s.parsedNr { EventAt(q, text, s, k); }
  }

  lemma EndStart(s: StoreState, text: Bytes)
    requires s.parsedNr <= |s.parsed|
    ensures Start(s, text, s.parsedNr) == |text|
  {
  }

  lemma {:induction false} StartsRise(q: RawQuery, text: Bytes, s: StoreState, a: nat, b: nat)
    requires FinalGood(q, text, s) && a <= b <= s.parsedNr
    ensures s.parsedNr <= |s.parsed| && Start(s, text, a) <= Start(s, text, b) <= |text|
    decreases b - a
  {
    hide FinalGood, Start;
    StartBound(q, text, s, b);
    StartBound(q, text, s, a);
    if a < b {
      StartsRise(q, text, s, a, b - 1);
      EventAt(q, text, s, b - 1);
    }
  }

  /** Events that deliver only matches leave nothing to keep. */
  lemma {:induction false} KeepNone(q: RawQuery, text: Bytes, s: StoreState, a: nat, b: nat)
    requires FinalGood(q, text, s) && a <= b <= s.parsedNr <= |s.parsed|
    requires forall k :: a <= k < b && s.parsed[k].ty == Entry ==> Matched(q, text, s.parsed[k])
    ensures Start(s, text, a) <= Start(s, text, b) <= |text|
    ensures Keep(q, UpTo(text, Start(s, text, b))) == Keep(q, UpTo(text, Start(s, text, a)))
    decreases b - a
  {
    hide FinalGood, UpTo, Keep, ItemAt, SpanOk, ModeAt, PairsBefore;
    StartsRise(q, text, s, a, b);
    if a < b {
      var e := s.parsed[b - 1];
      EventAt(q, text, s, b - 1);
      StartsRise(q, text, s, a, b - 1);
      KeepNone(q, text, s, a, b - 1);
      SpanAfter(q, text, e);
      KeepConcat(q, UpTo(text, e.begin), EventPairs(text, e));
      EventKept(q, text, e);
      NothingAdded(Keep(q, UpTo(text, e.begin)));
    }
  }

  lemma EventKept(q: RawQuery, text: Bytes, e: Parsed)
    requires SpanOk(q, text, e)
    ensures e.begin < |text|
    ensures Keep(q, EventPairs(text, e)) == if Matched(q, text, e) then [] else EventPairs(text, e)
    ensures e.ty != Entry ==> EventPairs(text, e) == [] && !Matched(q, text, e)
  {
    if e.ty == Entry {
      KeepOne(q, ItemAt(text, e.begin).pairs[0]);
      assert ItemAt(text, e.begin).pairs == [ItemAt(text, e.begin).pairs[0]];
    }
  }

  /** Events without a match are kept whole. */
  lemma {:induction false} KeepAll(q: RawQuery, text: Bytes, s: StoreState, a: nat, b: nat) returns (between: seq<Pair>)
    requires FinalGood(q, text, s) && a <= b <= s.parsedNr <= |s.parsed|
    requires forall k :: a <= k < b ==> !Matched(q, text, s.parsed[k])
    ensures Start(s, text, a) <= Start(s, text, b) <= |text|
    ensures UpTo(text, Start(s, text, b)) == UpTo(text, Start(s, text, a)) + between
    ensures Keep(q, between) == between
    decreases b - a
  {
    hide *;
    StartsRise(q, text, s, a, b);
    between := [];
    NothingAdded(UpTo(text, Start(s, text, a)));
    KeepEmpty(q);
    if a < b {
      var e := s.parsed[b - 1];
      EventAt(q, text, s, b - 1);
      StartsRise(q, text, s, a, b - 1);
      between := KeepAll(q, text, s, a, b - 1);
      SpanAfter(q, text, e);
      EventKept(q, text, e);
      KeepConcat(q, between, EventPairs(text, e));
      Assoc(UpTo(text, Start(s, text, a)), between, EventPairs(text, e));
      between := between + EventPairs(text, e);
    }
  }

  lemma KeepEmpty(q: RawQuery)
    ensures Keep(q, []) == []
  {
  }

  lemma Assoc(a: seq<Pair>, b: seq<Pair>, c: seq<Pair>)
    ensures a + b + c == a + (b + c)
  {
  }

  // ---- blanks before an event -----------------------------------------------------------------

  /** Positions that differ only by blanks. */
  ghost predicate Alike(text: Bytes, p: nat, b: nat) {
    && p <= |text| && b <= |text|
    && Quiet(ModeAt(text, p)) && Quiet(ModeAt(text, b))
    && StemAt(text, p) == StemAt(text, b)
    && PairsBefore(text, p) == PairsBefore(text, b)
  }

  lemma BlankBack(text: Bytes, p: nat)
    requires 0 < p <= |text| && Quiet(ModeAt(text, p)) && IsSpace(text[p - 1]) && text[p - 1] != LF
    ensures Alike(text, p - 1, p)
  {
    var m, c := ModeAt(text, p - 1), text[p - 1];
    ModeOn(text, p - 1, p);
    assert text[p - 1..p] == [c];
    WalkOne(m, c);
    BlankFromTop(m, c);
    NothingAdded(PairsBefore(text, p - 1));
  }

  lemma BlankFromTop(m: Mode, c: Byte)
    requires Quiet(Delta(m, c)) && IsSpace(c) && c != LF
    ensures Quiet(m) && AsTop(m) == AsTop(Delta(m, c)) && PairOf(m, c) == []
  {
  }

  lemma {:induction false} SwallowAlike(text: Bytes, b: nat, p: nat)
    requires b <= |text| && Quiet(ModeAt(text, b)) && Swallowed(text, b) <= p <= b
    ensures Alike(text, p, b)
    ensures p < b ==> IsSpace(text[p])
    decreases b
  {
    hide ModeAt, PairsBefore;
    if p < b {
      BlankBack(text, b);
      SwallowAlike(text, b - 1, p);
    }
  }

  // ---- copying ----------------------------------------------------------------------------------

  /**
   What has been written, read as a file, stands where the old text stood at `from`, with the
   matches gone.  The section in force may differ only where a header comes next.
   */
  ghost predicate Sync(q: RawQuery, text: Bytes, out: Bytes, from: nat) {
    && from <= |text|
    && Quiet(Walk(INIT, out))
    && Pairs(INIT, out) == Keep(q, UpTo(text, from))
    && (from == 0 ==> out == [])
    && (from < |text| ==>
         Quiet(ModeAt(text, from)) && (StemOf(Walk(INIT, out)) == StemAt(text, from) || text[from] == LBRACKET))
  }

  lemma {:induction false} BomWalk(k: nat, r: Bytes)
    requires Walk(Bom(k), r).Bom? && k <= 3
    ensures Walk(Bom(k), r).matched == k + |r| <= 3 && r == BOM[k..k + |r|]
    decreases |r|
  {
    if r != [] {
      var m1 := Delta(Bom(k), CharAt(r));
      if !m1.Bom? {
        NeverBom(m1, r[CharLen(r)..]);
      } else {
        assert CharLen(r) == 1;
        BomWalk(k + 1, r[1..]);
      }
    }
  }

  lemma {:induction false} NeverBom(m: Mode, r: Bytes)
    requires !m.Bom?
    ensures !Walk(m, r).Bom?
    decreases |r|
  {
    if r != [] { NeverBom(Delta(m, CharAt(r)), r[CharLen(r)..]); }
  }

  /** Inside a file that parses, nothing but its own mark looks like the start of one. */
  lemma NoMark(text: Bytes, p: nat)
    requires 0 < p < |text| && Quiet(ModeAt(text, p)) && Entries(text).Some?
    ensures text[p] != 0xEF
  {
    hide Walk, Pairs, Delta, PairOf, Finish;
    assert text[..|text|] == text;
    if text[p] == 0xEF {
      MarkChar(text[p..]);
      if ModeAt(text, p).Bom? { BomWalk(0, text[..p]); }
      MarkFails(ModeAt(text, p));
      QuietTop(ModeAt(text, p));
      ModeChar(text, p);
      ModeOn(text, p + 1, |text|);
      assert text[p + 1..|text|] == text[p + 1..];
      WalkFailed(text[p + 1..]);
      FinishFailed();
    }
  }

  lemma MarkChar(r: Bytes)
    requires r != [] && r[0] == 0xEF
    ensures CharAt(r) == 0xEF && CharLen(r) == 1
  {
  }

  lemma MarkFails(m: Mode)
    requires Quiet(m) && (m.Bom? ==> m.matched > 0)
    ensures Delta(m, 0xEF) == Failed
  {
  }

  lemma FinishFailed()
    ensures Finish(Failed) == None
  {
  }

  /** Two quiet modes read the same text alike when their sections agree or a header comes first. */
  lemma SameTop(m1: Mode, m2: Mode, r: Bytes)
    requires Quiet(m1) && Quiet(m2) && r != []
    requires StemOf(m1) == StemOf(m2) || r[0] == LBRACKET
    requires m1 == m2 || r[0] != 0xEF
    ensures Walk(m1, r) == Walk(m2, r) && Pairs(m1, r) == Pairs(m2, r)
  {
    if m1 != m2 {
      assert Delta(m1, CharAt(r)) == Delta(m2, CharAt(r));
      assert PairOf(m1, CharAt(r)) == PairOf(m2, CharAt(r)) == [];
    }
  }

  lemma SyncMove(q: RawQuery, text: Bytes, out: Bytes, from: nat, b: nat)
    requires Sync(q, text, out, from) && Alike(text, from, b) && from <= b
    requires from < b ==> IsSpace(text[from])
    ensures Sync(q, text, out, b) || (from == 0 && out == [])
    ensures Quiet(Walk(INIT, out)) && Pairs(INIT, out) == Keep(q, UpTo(text, b))
    ensures b < |text| ==> StemOf(Walk(INIT, out)) == StemAt(text, b) || text[b] == LBRACKET
  {
    UpToTop(text, from);
    UpToTop(text, b);
  }

  /** Copying up to the blanks before `b` keeps in step with the old text. */
  lemma CopyTo(q: RawQuery, text: Bytes, out: Bytes, from: nat, b: nat, between: seq<Pair>)
    requires Sync(q, text, out, from) && from <= b < |text| && Quiet(ModeAt(text, b)) && Entries(text).Some?
    requires UpTo(text, b) == UpTo(text, from) + between && Keep(q, between) == between
    ensures var out2 := out + Copied(text, from, Swallowed(text, b));
      && Quiet(Walk(INIT, out2)) && Pairs(INIT, out2) == Keep(q, UpTo(text, b))
      && (StemOf(Walk(INIT, out2)) == StemAt(text, b) || text[b] == LBRACKET)
  {
    var to := Swallowed(text, b);
    SwallowAlike(text, b, to);
    if to <= from {
      SwallowAlike(text, b, from);
      SyncMove(q, text, out, from, b);
      assert out + Copied(text, from, to) == out;
    } else {
      CopyPiece(q, text, out, from, to);
      hide *;
      UpToTop(text, from);
      AlikeUpTo(text, to, b);
      KeepConcat(q, UpTo(text, from), between);
      PiecePairs(q, UpTo(text, from), between, Pairs(ModeAt(text, from), text[from..to]));
    }
  }

  lemma AlikeUpTo(text: Bytes, p: nat, b: nat)
    requires Alike(text, p, b)
    ensures TopLike(ModeAt(text, p)) && TopLike(ModeAt(text, b))
    ensures UpTo(text, p) == PairsBefore(text, p) == PairsBefore(text, b) == UpTo(text, b)
    ensures StemAt(text, p) == StemAt(text, b)
  {
    UpToTop(text, p);
    UpToTop(text, b);
  }

  lemma PiecePairs(q: RawQuery, before: seq<Pair>, between: seq<Pair>, piece: seq<Pair>)
    ensures before + between == before + piece ==> between == piece
  {
    if before + between == before + piece {
      assert (before + between)[|before|..] == between && (before + piece)[|before|..] == piece;
    }
  }

  /** One stretch of the old text, closed by a line end, read behind what is already written. */
  lemma CopyPiece(q: RawQuery, text: Bytes, out: Bytes, from: nat, to: nat)
    requires Sync(q, text, out, from) && from < to <= |text| && Quiet(ModeAt(text, to)) && Entries(text).Some?
    ensures var out2 := out + Copied(text, from, to);
      && Quiet(Walk(INIT, out2)) && StemOf(Walk(INIT, out2)) == StemAt(text, to)
      && Pairs(INIT, out2) == Pairs(INIT, out) + Pairs(ModeAt(text, from), text[from..to])
      && PairsBefore(text, to) == PairsBefore(text, from) + Pairs(ModeAt(text, from), text[from..to])
      && TopLike(ModeAt(text, from))
  {
    hide *;
    var piece := text[from..to];
    var m1, m2 := Walk(INIT, out), ModeAt(text, from);
    SyncAhead(q, text, out, from);
    QuietTop(m1);
    QuietTop(m2);
    if from > 0 { NoMark(text, from); }
    SameTop(m1, m2, piece);
    ModeOn(text, from, to);
    WalkConcatTop(INIT, out, piece);
    CopiedIs(text, from, to);
    QuietTop(ModeAt(text, to));
    StemIs(text, to);
    if text[to - 1] != LF {
      WalkConcatTop(INIT, out + piece, [LF]);
      LineEndAtTop(Walk(INIT, out + piece));
      TopQuiet(AsTop(Walk(INIT, out + piece)).stem);
      StemOfTopLike(Walk(INIT, out + piece));
      NothingAdded(Pairs(INIT, out + piece));
      assert out + (piece + [LF]) == out + piece + [LF];
    }
  }

  lemma StemOfTopLike(m: Mode)
    requires TopLike(m)
    ensures StemOf(m) == AsTop(m).stem
  {
  }

  lemma CopiedIs(text: Bytes, from: nat, to: nat)
    requires from < to <= |text|
    ensures Copied(text, from, to) == if text[to - 1] != LF then text[from..to] + [LF] else text[from..to]
  {
  }

  /** In step with text still to come. */
  lemma SyncAhead(q: RawQuery, text: Bytes, out: Bytes, from: nat)
    requires Sync(q, text, out, from) && from < |text|
    ensures Quiet(Walk(INIT, out)) && Quiet(ModeAt(text, from)) && (from == 0 ==> Walk(INIT, out) == ModeAt(text, from))
    ensures StemOf(Walk(INIT, out)) == StemOf(ModeAt(text, from)) || text[from] == LBRACKET
  {
    hide Walk, Keep, UpTo, Pairs;
    if from == 0 { assert text[..0] == []; }
  }

  lemma LineEndAtTop(m: Mode)
    requires TopLike(m)
    ensures Walk(m, [LF]) == Top(AsTop(m).stem, false) && Pairs(m, [LF]) == []
  {
    WalkOne(m, LF);
  }

  // ---- replacing matches ------------------------------------------------------------------------

  /** Copying resumes at `from`; the events still to be seen start with event `k`. */
  ghost predicate Resumes(s: StoreState, text: Bytes, from: nat, k: nat) {
    && k <= s.parsedNr <= |s.parsed| && from <= Start(s, text, k) <= |text|
    && UpTo(text, from) == UpTo(text, Start(s, text, k))
  }

  /** The first event behind match number `i - 1`. */
  function Behind(s: StoreState, i: nat): nat
    requires i <= |s.seen|
  {
    if i == 0 then 0 else s.seen[i - 1] + 1
  }

  lemma SeenFacts(q: RawQuery, text: Bytes, s: StoreState, i: nat)
    requires FinalGood(q, text, s) && s.keySeen && i <= s.seenNr
    ensures 0 < s.seenNr <= |s.seen| && s.parsedNr <= |s.parsed| && s.sectionSeen
    ensures i < s.seenNr ==>
      && Behind(s, i) <= s.seen[i] < s.parsedNr && Matched(q, text, s.parsed[s.seen[i]])
      && forall k :: Behind(s, i) <= k < s.seen[i] ==> !Matched(q, text, s.parsed[k])
    ensures i == s.seenNr ==> Behind(s, i) <= s.parsedNr
    ensures i == s.seenNr ==> forall k :: Behind(s, i) <= k < s.parsedNr ==> !Matched(q, text, s.parsed[k])
  {
    hide Matched, Tiled;
    var head := s.seen[..s.seenNr];
    forall k | Behind(s, i) <= k < (if i < s.seenNr then s.seen[i] else s.parsedNr)
      ensures !Matched(q, text, s.parsed[k])
    {
      assert forall j :: 0 <= j < |head| ==> head[j] == s.seen[j] && head[j] != k;
    }
  }

  /** One matching entry is cut out. */
  lemma CutEntry(q: RawQuery, text: Bytes, s: StoreState, out: Bytes, from: nat, k: nat, j: nat)
    requires FinalGood(q, text, s) && Entries(text).Some? && Sync(q, text, out, from)
    requires Resumes(s, text, from, k) && k <= j < s.parsedNr && Matched(q, text, s.parsed[j])
    requires forall i :: k <= i < j ==> !Matched(q, text, s.parsed[i])
    ensures s.parsed[j].begin <= |text|
    ensures var e := s.parsed[j];
      var out2 := out + Copied(text, from, Swallowed(text, e.begin));
      && Sync(q, text, out2, e.end) && Resumes(s, text, e.end, j + 1)
      && e.begin < |text| && StemOf(Walk(INIT, out2)) == StemAt(text, e.begin)
  {
    hide *;
    ResumesHere(s, text, from, k);
    var e := s.parsed[j];
    EventAt(q, text, s, j);
    StartsRise(q, text, s, k, j);
    var between := KeepAll(q, text, s, k, j);
    MatchedSpan(q, text, e);
    CopyTo(q, text, out, from, e.begin, between);
    SpanAfter(q, text, e);
    EventKept(q, text, e);
    KeepConcat(q, UpTo(text, e.begin), EventPairs(text, e));
    NothingAdded(Keep(q, UpTo(text, e.begin)));
    StartsRise(q, text, s, j, j + 1);
    NowSync(q, text, out + Copied(text, from, Swallowed(text, e.begin)), e);
    NowResumes(s, text, e.end, j + 1);
  }

  lemma ResumesHere(s: StoreState, text: Bytes, from: nat, k: nat)
    requires Resumes(s, text, from, k)
    ensures k <= s.parsedNr <= |s.parsed| && from <= Start(s, text, k) <= |text|
    ensures UpTo(text, from) == UpTo(text, Start(s, text, k))
  {
  }

  lemma NowResumes(s: StoreState, text: Bytes, from: nat, k: nat)
    requires k <= s.parsedNr <= |s.parsed| && from == Start(s, text, k) <= |text|
    ensures Resumes(s, text, from, k)
  {
    hide UpTo;
  }

  lemma MatchedSpan(q: RawQuery, text: Bytes, e: Parsed)
    requires SpanOk(q, text, e) && Matched(q, text, e)
    ensures e.begin < |text| && Quiet(ModeAt(text, e.begin)) && text[e.begin] != LBRACKET && e.ty == Entry
  {
    hide ModeAt, ItemAt;
  }

  lemma NowSync(q: RawQuery, text: Bytes, out: Bytes, e: Parsed)
    requires e.begin < e.end <= |text| && Quiet(Walk(INIT, out)) && StemOf(Walk(INIT, out)) == StemAt(text, e.begin)
    requires Pairs(INIT, out) == Keep(q, UpTo(text, e.end))
    requires e.end == |text| || ModeAt(text, e.end) == Top(StemAt(text, e.begin), false)
    ensures Sync(q, text, out, e.end)
  {
    hide ModeAt, UpTo, Keep, Walk, Pairs;
  }

  /** All matches from number `i` on are cut out, and nothing else. */
  lemma {:induction false} ReplaceAll(q: Query, text: Bytes, s: StoreState, out: Bytes, i: nat, from: nat)
    requires FinalGood(q, text, s) && Entries(text).Some? && s.keySeen && Usable(s, text)
    requires i < s.seenNr && from <= |text| && Sync(q, text, out, from) && Resumes(s, text, from, Behind(s, i))
    ensures var r := Spliced(s, text, false, i, from);
      && Sync(q, text, out + r.0, r.1) && Resumes(s, text, r.1, Behind(s, s.seenNr))
      && StemOf(Walk(INIT, out + r.0)).name == q.key[..q.baselen + 1]
    decreases s.seenNr - i
  {
    hide *;
    SeenFacts(q, text, s, i);
    var j := s.seen[i];
    var e := s.parsed[j];
    CutEntry(q, text, s, out, from, Behind(s, i), j);
    BehindNext(s, i);
    EventAt(q, text, s, j);
    PlainCut(s, text, i);
    var out2 := out + Copied(text, from, Swallowed(text, e.begin));
    SplicedStep(s, text, false, i, from, out);
    if i + 1 < s.seenNr {
      ReplaceAll(q, text, s, out2, i + 1, e.end);
    } else {
      SplicedDone(s, text, false, i + 1, e.end);
      assert out2 + [] == out2;
      MatchedStem(q, text, e);
    }
  }

  lemma BehindNext(s: StoreState, i: nat)
    requires i < |s.seen|
    ensures Behind(s, i + 1) == s.seen[i] + 1
  {
  }

  lemma PlainCut(s: StoreState, text: Bytes, i: nat)
    requires Usable(s, text) && i < s.seenNr && s.keySeen
    ensures s.seenNr <= |s.seen| && s.seen[i] < |s.parsed| && s.parsed[s.seen[i]].begin <= |text|
    ensures var e := s.parsed[s.seen[i]];
      CutAt(s, text, false, i) == Cut(Swallowed(text, e.begin), e.end, i + 1)
  {
    hide Swallowed;
  }

  /** A match lies in the key's own section, spelled exactly. */
  lemma MatchedStem(q: Query, text: Bytes, e: Parsed)
    requires SpanOk(q, text, e) && Matched(q, text, e)
    ensures e.begin < |text| && StemAt(text, e.begin).name == q.key[..q.baselen + 1]
  {
    EntryMode(text, e.begin);
    MatchInSection(q, StemAt(text, e.begin), ItemAt(text, e.begin).pairs[0]);
  }

  // ---- the rest of the file -----------------------------------------------------------------------

  /** The old text from `from` on means what it meant, read behind anything quiet in its section. */
  lemma RestReads(text: Bytes, from: nat, m: Mode) returns (rest: seq<Pair>)
    requires 0 < from <= |text| && Entries(text).Some? && Quiet(m)
    requires from < |text| ==> Quiet(ModeAt(text, from)) && (StemOf(m) == StemAt(text, from) || text[from] == LBRACKET)
    ensures EntriesFrom(m, text[from..]) == Some(rest)
    ensures Entries(text).value == UpTo(text, from) + rest
  {
    hide *;
    if from == |text| {
      rest := [];
      UpToEnd(text);
      NothingAdded(UpTo(text, from));
      NothingLeft(m);
      assert text[from..] == [];
    } else {
      NoMark(text, from);
      QuietTop(m);
      QuietTop(ModeAt(text, from));
      StemIs(text, from);
      SameEntries(m, ModeAt(text, from), text[from..]);
      SplitEntries(text, from);
      rest := EntriesFrom(ModeAt(text, from), text[from..]).value;
    }
  }

  lemma QuietTop(m: Mode)
    ensures Quiet(m) ==> TopLike(m)
  {
  }

  lemma NothingLeft(m: Mode)
    requires Quiet(m)
    ensures EntriesFrom(m, []) == Some([])
  {
    WalkNothing(m);
    var none: seq<Pair> := [];
    assert Finish(m) == Some(none) && none + none == none;
  }

  lemma SameEntries(m1: Mode, m2: Mode, r: Bytes)
    requires Quiet(m1) && Quiet(m2) && r != [] && r[0] != 0xEF
    requires StemOf(m1) == StemOf(m2) || r[0] == LBRACKET
    ensures EntriesFrom(m1, r) == EntriesFrom(m2, r)
  {
    hide Walk, Pairs, Finish, Quiet;
    SameTop(m1, m2, r);
  }

  lemma SplitEntries(text: Bytes, p: nat)
    requires p <= |text| && TopLike(ModeAt(text, p)) && Entries(text).Some?
    ensures EntriesFrom(ModeAt(text, p), text[p..]).Some?
    ensures Entries(text).value == UpTo(text, p) + EntriesFrom(ModeAt(text, p), text[p..]).value
  {
    hide EntriesFrom, Walk, Pairs;
    assert text == text[..p] + text[p..];
    EntriesConcatTop(INIT, text[..p], text[p..]);
    UpToTop(text, p);
  }

  /** One past the last match. */
  function AfterLast(q: RawQuery, es: seq<Pair>): (k: nat)
    ensures k <= |es|
  {
    if es == [] then 0
    else if q.Matches(es[|es| - 1]) then |es|
    else AfterLast(q, es[..|es| - 1])
  }

  lemma {:induction false} AfterLastSplit(q: RawQuery, a: seq<Pair>, b: seq<Pair>)
    requires a == [] || q.Matches(a[|a| - 1])
    requires Keep(q, b) == b
    ensures AfterLast(q, a + b) == |a|
    decreases |b|
  {
    if b == [] {
      assert a + b == a;
    } else {
      var b1, last := b[..|b| - 1], b[|b| - 1];
      assert b == b1 + [last] && (a + b)[..|a + b| - 1] == a + b1;
      KeepConcat(q, b1, [last]);
      KeepOne(q, last);
      KeepShort(q, b1);
      AfterLastSplit(q, a, b1);
    }
  }

  lemma {:induction false} KeepShort(q: RawQuery, es: seq<Pair>)
    ensures |Keep(q, es)| <= |es|
  {
    if es != [] { KeepShort(q, es[1..]); }
  }

  /** What is left to read behind `from` holds no match. */
  lemma RestKept(q: RawQuery, text: Bytes, s: StoreState, from: nat, k: nat, rest: seq<Pair>)
    requires FinalGood(q, text, s) && Entries(text).Some? && Resumes(s, text, from, k)
    requires forall i :: k <= i < s.parsedNr ==> !Matched(q, text, s.parsed[i])
    requires Entries(text).value == UpTo(text, from) + rest
    ensures Keep(q, rest) == rest
  {
    hide FinalGood, UpTo, Keep, Matched, Entries;
    var between := KeepAll(q, text, s, k, s.parsedNr);
    UpToEnd(text);
    assert Start(s, text, s.parsedNr) == |text|;
    assert UpTo(text, from) + between == UpTo(text, from) + rest;
    PiecePairs(q, UpTo(text, from), between, rest);
  }

  // ---- set, when the key is there -------------------------------------------------------------------

  /** Every match goes, and the new entry takes the place of the last one. */
  function Replaced(q: RawQuery, es: seq<Pair>, p: Pair): seq<Pair> {
    Keep(q, es[..AfterLast(q, es)]) + [p] + es[AfterLast(q, es)..]
  }

  lemma NewLineReads(m: Mode, name: Bytes, v: Bytes, comment: Option<Bytes>, rest: Bytes, after: seq<Pair>)
    requires Quiet(m) && NameOk(name) && CommentOk(comment)
    requires EntriesFrom(Top(StemOf(m), false), rest) == Some(after)
    ensures EntriesFrom(m, PairLine(name, v, comment) + rest) ==
      Some([Pair(StemOf(m).name + LowerAll(name), Some(ReadBack(v)))] + after)
  {
    hide PairLine, ReadBack, Delta, PairOf, NameOk, CommentOk, LowerAll;
    PairReads(m, name, v, comment);
    EntriesConcatTop(m, PairLine(name, v, comment), rest);
  }

  lemma EntriesBehind(out: Bytes, rest: Bytes, after: seq<Pair>)
    requires TopLike(Walk(INIT, out)) && EntriesFrom(Walk(INIT, out), rest) == Some(after)
    ensures Entries(out + rest) == Some(Pairs(INIT, out) + after)
  {
    EntriesConcatTop(INIT, out, rest);
  }

  /** A well-formed key gives a header and a name that read back as its canonical form. */
  lemma CanonicalName(key: Bytes, b: nat)
    requires WellFormedKey(key, b)
    ensures b + 1 < |key| && NameOk(key[b + 1..]) && BaseOk(key[..b])
    ensures Canonical(key, b) == Canonical(key, b)[..b + 1] + LowerAll(key[b + 1..])
    ensures BaseStem(key[..b]).name == Canonical(key, b)[..b + 1]
  {
    hide *;
    CanonicalTail(key, b);
    CanonicalBase(key, b);
    NamePartOk(key, b);
    BasePartOk(key, b);
  }

  lemma NamePartOk(key: Bytes, b: nat)
    requires WellFormedKey(key, b)
    ensures b + 1 < |key| && NameOk(key[b + 1..])
  {
    hide IsKeyChar, IsAlpha;
    FirstDotPrefix(key, b);
    var name := key[b + 1..];
    assert forall i :: 0 <= i < |name| ==> ByteOk(key, b, b + 1 + i) && name[i] == key[b + 1 + i];
  }

  lemma BasePartOk(key: Bytes, b: nat)
    requires WellFormedKey(key, b)
    ensures b < |key| && BaseOk(key[..b])
  {
    hide IsKeyChar, IsAlpha, FirstDot;
    FirstDotPrefix(key, b);
    var base := key[..b];
    assert forall i :: 0 <= i < b ==> ByteOk(key, b, i) && base[i] == key[i];
  }

  lemma CanonicalTail(key: Bytes, b: nat)
    requires WellFormedKey(key, b)
    ensures Canonical(key, b) == Canonical(key, b)[..b + 1] + LowerAll(key[b + 1..])
  {
    FirstDotPrefix(key, b);
    var c := Canonical(key, b);
    assert c == c[..b + 1] + c[b + 1..];
    assert c[b + 1..] == LowerAll(key[b + 1..]);
  }

  lemma CanonicalBase(key: Bytes, b: nat)
    requires WellFormedKey(key, b)
    ensures BaseStem(key[..b]).name == Canonical(key, b)[..b + 1]
  {
    FirstDotPrefix(key, b);
    var base, d := key[..b], FirstDot(key);
    assert base[..d] == key[..d] && base[d..] == key[d..b];
    assert BaseStem(base).name == LowerAll(key[..d]) + key[d..b] + [DOT];
  }

  lemma {:induction false} FirstDotPrefix(key: Bytes, b: nat)
    requires b < |key| && key[b] == DOT
    ensures FirstDot(key) <= b && FirstDot(key[..b]) == FirstDot(key)
    decreases |key|
  {
    if key[0] != DOT {
      FirstDotPrefix(key[1..], b - 1);
      assert key[..b][1..] == key[1..][..b - 1];
    }
  }

  /** The store's scan fails exactly on the texts that do not parse. */
  lemma {:induction false} DriveParses(q: RawQuery, s: StoreState, m: Mode, pos: nat, r: Bytes)
    requires s.parsedNr <= |s.parsed|
    ensures Drive(q, s, m, pos, r).Some? <==> Finish(Walk(m, r)).Some?
    decreases |r|, EofRank(m)
  {
    if m.Failed? {
      WalkFailed(r);
      FailedItem(q, s, pos, r);
    } else if r != [] {
      DriveUnfold(q, s, m, pos, r);
      WalkUnfold(m, r);
      hide *;
      DriveParses(q, Feed(q, s, m, pos + CharLen(r), CharAt(r)), Delta(m, CharAt(r)), pos + CharLen(r),
        r[CharLen(r)..]);
    } else {
      WalkNothing(m);
      if !TopLike(m) {
        LastStep(q, s, m, pos);
        hide *;
        DriveParses(q, OnPairs(q, s, PairOf(m, LF)), Delta(m, LF), pos, []);
        WalkNothing(Delta(m, LF));
      }
    }
  }

  lemma DriveUnfold(q: RawQuery, s: StoreState, m: Mode, pos: nat, r: Bytes)
    requires s.parsedNr <= |s.parsed| && r != [] && !m.Failed?
    ensures Drive(q, s, m, pos, r) ==
      Drive(q, Feed(q, s, m, pos + CharLen(r), CharAt(r)), Delta(m, CharAt(r)), pos + CharLen(r), r[CharLen(r)..])
  {
    hide Feed, Delta;
  }

  lemma LastStep(q: RawQuery, s: StoreState, m: Mode, pos: nat)
    requires s.parsedNr <= |s.parsed| && !TopLike(m) && !m.Failed?
    ensures Drive(q, s, m, pos, []) == Drive(q, OnPairs(q, s, PairOf(m, LF)), Delta(m, LF), pos, [])
    ensures Finish(m).Some? <==> Finish(Delta(m, LF)).Some?
    ensures EofRank(Delta(m, LF)) < EofRank(m)
  {
    hide OnPairs;
  }

  lemma ScanParses(q: RawQuery, text: Bytes)
    ensures Scan(q, text).Some? <==> Entries(text).Some?
  {
    DriveParses(q, EMPTY_STORE, INIT, 0, text);
  }

  lemma AtTheStart(q: RawQuery, text: Bytes, s: StoreState)
    requires FinalGood(q, text, s)
    ensures Sync(q, text, [], 0) && Resumes(s, text, 0, 0) && UpTo(text, 0) == []
  {
    assert text[..0] == [];
    WalkNothing(INIT);
    assert PairsBefore(text, 0) == [] && Finish(ModeAt(text, 0)) == Some([]);
    if s.parsedNr > 0 {
      EventAt(q, text, s, 0);
      FirstEvent(q, text, s);
      UpToTop(text, s.parsed[0].begin);
    } else {
      NoEvents(q, text, s);
    }
  }

  lemma FirstEvent(q: RawQuery, text: Bytes, s: StoreState)
    requires FinalGood(q, text, s) && s.parsedNr > 0
    ensures s.parsedNr <= |s.parsed| && s.parsed[0].begin <= |text|
    ensures TopLike(ModeAt(text, s.parsed[0].begin)) && PairsBefore(text, s.parsed[0].begin) == []
    ensures !InComment(ModeAt(text, s.parsed[0].begin))
  {
    hide SeenOk, ModeAt, PairsBefore;
    assert SpanOk(q, text, s.parsed[..s.parsedNr][0]);
  }

  lemma NoEvents(q: RawQuery, text: Bytes, s: StoreState)
    requires FinalGood(q, text, s) && s.parsedNr == 0
    ensures UpTo(text, |text|) == [] && ModeAt(text, |text|).Bom?
    ensures text == [] || text == BOM || Entries(text) == None
  {
    assert s.parsed[..0] == [];
    assert text[..|text|] == text;
    BomWalk(0, text);
  }

  /** What was read up to where copying resumes ends with the last match. */
  lemma EndsWithMatch(q: RawQuery, text: Bytes, s: StoreState, from: nat)
    requires FinalGood(q, text, s) && s.keySeen && 0 < s.seenNr <= |s.seen|
    requires Resumes(s, text, from, Behind(s, s.seenNr))
    ensures UpTo(text, from) != [] && q.Matches(UpTo(text, from)[|UpTo(text, from)| - 1])
    ensures from > 0
  {
    hide *;
    SeenFacts(q, text, s, s.seenNr - 1);
    var e := s.parsed[s.seen[s.seenNr - 1]];
    BehindNext(s, s.seenNr - 1);
    EventAt(q, text, s, s.seen[s.seenNr - 1]);
    ResumesHere(s, text, from, Behind(s, s.seenNr));
    SpanAfter(q, text, e);
    OneMatch(q, text, e);
    if from == 0 { NothingBefore(text); }
  }

  lemma NothingBefore(text: Bytes)
    ensures UpTo(text, 0) == []
  {
    assert text[..0] == [];
    WalkNothing(INIT);
  }

  lemma OneMatch(q: RawQuery, text: Bytes, e: Parsed)
    requires Matched(q, text, e)
    ensures e.begin < |text| && |EventPairs(text, e)| == 1 && q.Matches(EventPairs(text, e)[0])
  {
  }

  /** What a set writes before its new line, when the key is there, and what is read behind it. */
  lemma SetSeenParts(q: Query, key: Bytes, text: Bytes, s: StoreState, v: Bytes, comment: Option<Bytes>, out: Bytes,
      from: nat)
      returns (rest: seq<Pair>)
    requires Scan(q, text) == Some(s) && s.keySeen && WellFormedKey(key, q.baselen)
    requires Usable(s, text) && (out, from) == Spliced(s, text, false, 0, 0)
    ensures Placed(s) == s && Entries(text).Some? && 0 < from <= |text|
    ensures Quiet(Walk(INIT, out)) && StemOf(Walk(INIT, out)).name == q.key[..q.baselen + 1]
    ensures Pairs(INIT, out) == Keep(q, UpTo(text, from)) && Entries(text).value == UpTo(text, from) + rest
    ensures UpTo(text, from) != [] && q.Matches(UpTo(text, from)[|UpTo(text, from)| - 1]) && Keep(q, rest) == rest
    ensures EntriesFrom(Top(StemOf(Walk(INIT, out)), false), text[from..]) == Some(rest)
    ensures !AtCrLf(text, from)
    ensures q.baselen < |key|
    ensures Edited(s, text, key, q.baselen, Some(v), comment) ==
      out + (PairLine(key[q.baselen + 1..], v, comment) + text[from..])
  {
    hide *;
    ScanGood(q, text);
    ScanParses(q, text);
    SeenFacts(q, text, s, 0);
    AlreadyPlaced(s);
    AtTheStart(q, text, s);
    BehindNone(s);
    CanonicalName(key, q.baselen);
    ReplaceAll(q, text, s, [], 0, 0);
    assert [] + out == out;
    EndsWithMatch(q, text, s, from);
    SyncHere(q, text, out, from);
    var stem := StemOf(Walk(INIT, out));
    TopQuiet(stem);
    rest := RestReads(text, from, Top(stem, false));
    SeenFacts(q, text, s, s.seenNr);
    RestKept(q, text, s, from, Behind(s, s.seenNr), rest);
    EditedSeen(s, text, key, q.baselen, v, comment);
    ResumesExactly(q, text, s);
  }

  /** Copying resumes where an event ended, never at a CR LF. */
  lemma {:induction false} ResumesExactly(q: RawQuery, text: Bytes, s: StoreState)
    requires FinalGood(q, text, s) && s.keySeen && Usable(s, text)
    ensures !AtCrLf(text, Spliced(s, text, false, 0, 0).1)
  {
    hide *;
    SeenFacts(q, text, s, 0);
    LastResume(s, text, 0, 0);
    SeenFacts(q, text, s, s.seenNr - 1);
    EventAt(q, text, s, s.seen[s.seenNr - 1]);
    var k := s.seen[s.seenNr - 1] + 1;
    if k < s.parsedNr {
      EventAt(q, text, s, k);
      NotCrLf(q, text, s.parsed[k]);
    } else {
      EndStart(s, text);
      NoCrLfAtEnd(text);
    }
  }

  lemma NotCrLf(q: RawQuery, text: Bytes, e: Parsed)
    requires SpanOk(q, text, e)
    ensures !AtCrLf(text, e.begin)
  {
  }

  lemma NoCrLfAtEnd(text: Bytes)
    ensures !AtCrLf(text, |text|)
  {
  }

  lemma {:induction false} LastResume(s: StoreState, text: Bytes, i: nat, from: nat)
    requires Usable(s, text) && s.keySeen && i < s.seenNr && from <= |text|
    ensures s.seenNr <= |s.seen| && s.seen[s.seenNr - 1] < |s.parsed|
    ensures Spliced(s, text, false, i, from).1 == s.parsed[s.seen[s.seenNr - 1]].end
    decreases s.seenNr - i
  {
    hide *;
    PlainCut(s, text, i);
    SplicedStep(s, text, false, i, from, []);
    var e := s.parsed[s.seen[i]];
    CutBounds(s, text, i);
    if i + 1 < s.seenNr { LastResume(s, text, i + 1, e.end); } else { SplicedDone(s, text, false, i + 1, e.end); }
  }

  lemma CutBounds(s: StoreState, text: Bytes, i: nat)
    requires Usable(s, text) && i < s.seenNr
    ensures s.seenNr <= |s.seen| && s.seen[i] < |s.parsed| && s.parsed[s.seen[i]].end <= |text|
  {
  }

  /** Setting a key that is there: all matches go, one new entry stands where the last one stood. */
  lemma SetSeen(q: Query, key: Bytes, text: Bytes, s: StoreState, v: Bytes, comment: Option<Bytes>)
    requires Scan(q, text) == Some(s) && s.keySeen
    requires WellFormedKey(key, q.baselen) && q.key == Canonical(key, q.baselen) && CommentOk(comment)
    ensures Usable(Placed(s), text) && Entries(text).Some?
    ensures Entries(Edited(s, text, key, q.baselen, Some(v), comment)) ==
      Some(Replaced(q, Entries(text).value, Pair(q.key, Some(ReadBack(v)))))
  {
    hide *;
    ScanGood(q, text);
    ScanUsable(q, text);
    SeenFacts(q, text, s, 0);
    AlreadyPlaced(s);
    var (out, from) := Spliced(s, text, false, 0, 0);
    var rest := SetSeenParts(q, key, text, s, v, comment, out, from);
    var name, p := key[q.baselen + 1..], Pair(q.key, Some(ReadBack(v)));
    CanonicalName(key, q.baselen);
    AfterLastSplit(q, UpTo(text, from), rest);
    QuietTop(Walk(INIT, out));
    NewLineReads(Walk(INIT, out), name, v, comment, text[from..], rest);
    EntriesBehind(out, PairLine(name, v, comment) + text[from..], [p] + rest);
    ReplacedParts(q, UpTo(text, from), rest, p);
  }

  lemma AlreadyPlaced(s: StoreState)
    requires s.seenNr > 0
    ensures Placed(s) == s
  {
  }

  lemma BehindNone(s: StoreState)
    ensures Behind(s, 0) == 0
  {
  }

  lemma SyncHere(q: RawQuery, text: Bytes, out: Bytes, from: nat)
    requires Sync(q, text, out, from)
    ensures from <= |text| && Quiet(Walk(INIT, out)) && TopLike(Walk(INIT, out))
    ensures Pairs(INIT, out) == Keep(q, UpTo(text, from))
    ensures from < |text| ==>
      Quiet(ModeAt(text, from)) && (StemOf(Walk(INIT, out)) == StemAt(text, from) || text[from] == LBRACKET)
  {
    hide ModeAt, UpTo, Keep, Walk, Pairs;
  }

  lemma TopQuiet(stem: Stem)
    ensures Quiet(Top(stem, false)) && StemOf(Top(stem, false)) == stem
  {
  }

  lemma EditedSeen(s: StoreState, text: Bytes, key: Bytes, b: nat, v: Bytes, comment: Option<Bytes>)
    requires b < |key| && Placed(s) == s && Usable(s, text) && s.sectionSeen
    ensures var r := Spliced(s, text, false, 0, 0);
      Edited(s, text, key, b, Some(v), comment) == r.0 + (PairLine(key[b + 1..], v, comment) + text[r.1..])
  {
    hide Spliced, PairLine, Usable;
  }

  lemma ReplacedParts(q: RawQuery, before: seq<Pair>, rest: seq<Pair>, p: Pair)
    requires AfterLast(q, before + rest) == |before|
    ensures Replaced(q, before + rest, p) == Keep(q, before) + ([p] + rest)
  {
    hide Keep;
    assert (before + rest)[..|before|] == before && (before + rest)[|before|..] == rest;
  }

  // ---- unset ----------------------------------------------------------------------------------------

  /** Widening from behind event `k` never reaches back past it. */
  ghost predicate Edge(s: StoreState, k: nat) {
    && k <= s.parsedNr <= |s.parsed|
    && (k == 0 || k == s.parsedNr || s.parsed[k - 1].ty == Entry ||
      (s.parsed[k].ty == Section && !s.parsed[k].isKeysSection))
  }

  /** A blank, or a header of the key's section. */
  predicate Idle(e: Parsed) { e.ty == Whitespace || (e.ty == Section && e.isKeysSection) }

  ghost predicate NoEof(s: StoreState) {
    s.parsedNr <= |s.parsed| && forall k :: 0 <= k < s.parsedNr ==> s.parsed[k].ty != Eof
  }

  lemma SpansAreEvents(q: RawQuery, text: Bytes, s: StoreState)
    requires FinalGood(q, text, s)
    ensures NoEof(s)
  {
    hide SeenOk, ModeAt, PairsBefore, ItemAt;
    assert s.parsedNr <= |s.parsed| by { assert SeenOk(q, text, s); SeenBound(q, text, s); }
    forall k | 0 <= k < s.parsedNr ensures s.parsed[k].ty != Eof {
      assert SpanOk(q, text, s.parsed[..s.parsedNr][k]);
    }
  }

  lemma SeenBound(q: RawQuery, text: Bytes, s: StoreState)
    requires SeenOk(q, text, s)
    ensures s.parsedNr <= |s.parsed|
  {
  }

  lemma {:induction false} RemovedFacts(s: StoreState, a: nat, sectionSeen: bool, k: nat)
    requires NoEof(s) && k <= a <= s.parsedNr && FirstRemoved(s, a, sectionSeen).Some?
    requires a == k ==> k == 0 || s.parsed[k - 1].ty == Entry
    requires a > k > 0 ==> s.parsed[k - 1].ty == Entry || (s.parsed[k].ty == Section && !s.parsed[k].isKeysSection)
    ensures var first := FirstRemoved(s, a, sectionSeen).value;
      && k <= first <= a && (forall x :: first <= x < a ==> Idle(s.parsed[x]))
      && (first > 0 ==> s.parsed[first - 1].ty == Entry || s.parsed[first - 1].ty == Section)
    decreases a
  {
    if a > 0 && Idle(s.parsed[a - 1]) {
      RemovedFacts(s, a - 1, sectionSeen || s.parsed[a - 1].ty == Section, k);
    }
  }

  lemma {:induction false} KeptFacts(q: RawQuery, text: Bytes, s: StoreState, a: nat, seen: nat)
    requires NoEof(s) && s.seenNr <= |s.seen| && seen < s.seenNr && s.seen[seen] < a <= s.parsedNr
    requires forall i :: 0 <= i < s.seenNr ==> s.seen[i] < s.parsedNr && Matched(q, text, s.parsed[s.seen[i]])
    requires forall i, j :: 0 <= i < j < s.seenNr ==> s.seen[i] < s.seen[j]
    requires seen + 1 < s.seenNr ==> s.seen[seen + 1] >= a
    requires FirstKept(s, a, seen).Some?
    ensures var (kept, last) := FirstKept(s, a, seen).value;
      && a <= kept <= s.parsedNr && seen <= last < s.seenNr && s.seen[last] < kept
      && (last + 1 < s.seenNr ==> s.seen[last + 1] >= kept)
      && (forall x :: a <= x < kept ==> Idle(s.parsed[x]) || Matched(q, text, s.parsed[x]))
      && (kept < s.parsedNr ==> s.parsed[kept].ty == Section && !s.parsed[kept].isKeysSection)
    decreases s.parsedNr - a
  {
    hide *;
    KeptNext(s, a, seen);
    if a < s.parsedNr {
      if seen + 1 < s.seenNr { MatchIsEntry(q, text, s.parsed[s.seen[seen + 1]]); }
      if Idle(s.parsed[a]) {
        KeptFacts(q, text, s, a + 1, seen);
      } else if s.parsed[a].ty == Entry {
        KeptFacts(q, text, s, a + 1, seen + 1);
      }
    }
  }

  /** One event of the search forwards. */
  lemma KeptNext(s: StoreState, a: nat, seen: nat)
    requires NoEof(s) && a <= s.parsedNr && s.seenNr <= |s.seen|
    ensures s.parsedNr <= |s.parsed|
    ensures a == s.parsedNr ==> FirstKept(s, a, seen) == Some((a, seen))
    ensures a < s.parsedNr ==> (
      var e := s.parsed[a];
      FirstKept(s, a, seen) ==
        if Idle(e) then FirstKept(s, a + 1, seen)
        else if e.ty == Section then Some((a, seen))
        else if e.ty == Entry && seen + 1 < s.seenNr && s.seen[seen + 1] == a then FirstKept(s, a + 1, seen + 1)
        else None)
    ensures a < s.parsedNr && Idle(s.parsed[a]) ==> s.parsed[a].ty != Entry
    ensures a < s.parsedNr && !Idle(s.parsed[a]) && s.parsed[a].ty == Section ==> !s.parsed[a].isKeysSection
  {
  }

  /** The first event a widened cut removes, the first one it keeps, and the last match it takes along. */
  function WideSpan(s: StoreState, text: Bytes, i: nat): (nat, nat, nat)
    requires Usable(s, text) && s.keySeen && i < s.seenNr && Widened(s, text, i).Some?
  {
    var kept := FirstKept(s, s.seen[i] + 1, i).value;
    (FirstRemoved(s, s.seen[i], false).value, kept.0, kept.1)
  }

  lemma WidenedParts(s: StoreState, text: Bytes, i: nat, first: nat, kept: nat, last: nat)
    requires Usable(s, text) && s.keySeen && i < s.seenNr <= |s.seen| && Widened(s, text, i).Some?
    requires (first, kept, last) == WideSpan(s, text, i)
    ensures s.seen[i] < s.parsedNr <= |s.parsed|
    ensures FirstRemoved(s, s.seen[i], false) == Some(first)
    ensures FirstKept(s, s.seen[i] + 1, i) == Some((kept, last))
    ensures first <= s.seen[i] < kept <= s.parsedNr && last >= i
    ensures Widened(s, text, i) ==
      var end := if kept < s.parsedNr then s.parsed[kept].begin else s.parsed[s.parsedNr - 1].end;
      Some((s.parsed[first].begin, end, last))
  {
  }

  lemma NotIdle(q: RawQuery, text: Bytes, e: Parsed)
    requires e.ty == Entry
    ensures !Idle(e)
  {
  }

  lemma MatchIsEntry(q: RawQuery, text: Bytes, e: Parsed)
    requires Matched(q, text, e)
    ensures e.ty == Entry
  {
  }

  lemma EdgeHere(s: StoreState, k: nat, j: nat)
    requires Edge(s, k) && k <= j < s.parsedNr && s.parsed[j].ty == Entry
    ensures j == k ==> k == 0 || s.parsed[k - 1].ty == Entry
    ensures j > k > 0 ==> s.parsed[k - 1].ty == Entry || (s.parsed[k].ty == Section && !s.parsed[k].isKeysSection)
  {
  }

  lemma AllSeen(q: RawQuery, text: Bytes, s: StoreState)
    requires FinalGood(q, text, s) && s.keySeen
    ensures 0 < s.seenNr <= |s.seen| && s.parsedNr <= |s.parsed|
    ensures forall i :: 0 <= i < s.seenNr ==> s.seen[i] < s.parsedNr && Matched(q, text, s.parsed[s.seen[i]])
    ensures forall i, j :: 0 <= i < j < s.seenNr ==> s.seen[i] < s.seen[j]
  {
    hide Tiled, Matched;
  }

  lemma StartCases(s: StoreState, text: Bytes, first: nat, kept: nat)
    requires first < s.parsedNr <= |s.parsed| && kept <= s.parsedNr
    requires s.parsed[s.parsedNr - 1].end == |text|
    ensures Start(s, text, first) == s.parsed[first].begin
    ensures Start(s, text, kept) == if kept < s.parsedNr then s.parsed[kept].begin else s.parsed[s.parsedNr - 1].end
  {
  }

  /** The span `maybe_remove_section` cuts holds only blanks, headers of the key's section and matches. */
  lemma WidenFacts(q: RawQuery, text: Bytes, s: StoreState, i: nat, k: nat, first: nat, kept: nat, last: nat)
    requires FinalGood(q, text, s) && s.keySeen && Usable(s, text) && i < s.seenNr && Widened(s, text, i).Some?
    requires (first, kept, last) == WideSpan(s, text, i)
    requires Edge(s, k) && k <= s.seen[i]
    ensures k <= first <= s.seen[i] < kept <= s.parsedNr <= |s.parsed| && i <= last < s.seenNr <= |s.seen|
    ensures Start(s, text, first) <= |text| && Start(s, text, kept) <= |text|
    ensures Widened(s, text, i) == Some((Start(s, text, first), Start(s, text, kept), last))
    ensures forall x :: first <= x < kept ==> Idle(s.parsed[x]) || Matched(q, text, s.parsed[x])
    ensures first > 0 ==> s.parsed[first - 1].ty == Entry || s.parsed[first - 1].ty == Section
    ensures kept < s.parsedNr ==> s.parsed[kept].ty == Section && !s.parsed[kept].isKeysSection
    ensures s.seen[last] < kept && (last + 1 < s.seenNr ==> s.seen[last + 1] >= kept)
  {
    hide *;
    SpansAreEvents(q, text, s);
    SeenFacts(q, text, s, i);
    AllSeen(q, text, s);
    var j := s.seen[i];
    WidenedParts(s, text, i, first, kept, last);
    MatchIsEntry(q, text, s.parsed[j]);
    EdgeHere(s, k, j);
    RemovedFacts(s, j, false, k);
    KeptFacts(q, text, s, j + 1, i);
    StartBound(q, text, s, first);
    StartBound(q, text, s, kept);
    EventAt(q, text, s, s.parsedNr - 1);
    EndStart(s, text);
    NotIdle(q, text, s.parsed[j]);
    StartCases(s, text, first, kept);
  }

  lemma QuietStart(q: RawQuery, text: Bytes, s: StoreState, k: nat)
    requires FinalGood(q, text, s) && k < s.parsedNr <= |s.parsed|
    requires k > 0 ==> s.parsed[k - 1].ty == Entry || s.parsed[k - 1].ty == Section
    ensures Start(s, text, k) < |text| && Quiet(ModeAt(text, Start(s, text, k)))
  {
    hide FinalGood, ModeAt, ItemAt, UpTo;
    EventAt(q, text, s, k);
    if k == 0 {
      FirstEvent(q, text, s);
    } else {
      EventAt(q, text, s, k - 1);
      SpanAfter(q, text, s.parsed[k - 1]);
    }
  }

  /** A widened cut keeps in step: what goes holds only matches. */
  lemma CutWide(q: RawQuery, text: Bytes, s: StoreState, out: Bytes, from: nat, k: nat, first: nat, kept: nat)
    requires FinalGood(q, text, s) && Entries(text).Some? && Sync(q, text, out, from) && Resumes(s, text, from, k)
    requires k <= first < kept <= s.parsedNr <= |s.parsed|
    requires forall i :: k <= i < first ==> !Matched(q, text, s.parsed[i])
    requires forall x :: first <= x < kept ==> Idle(s.parsed[x]) || Matched(q, text, s.parsed[x])
    requires first > 0 ==> s.parsed[first - 1].ty == Entry || s.parsed[first - 1].ty == Section
    requires kept < s.parsedNr ==> s.parsed[kept].ty == Section
    ensures Start(s, text, first) <= |text|
    ensures var out2 := out + Copied(text, from, Swallowed(text, Start(s, text, first)));
      Sync(q, text, out2, Start(s, text, kept)) && Resumes(s, text, Start(s, text, kept), kept)
  {
    hide *;
    StartsRise(q, text, s, k, first);
    StartsRise(q, text, s, first, kept);
    ResumesHere(s, text, from, k);
    QuietStart(q, text, s, first);
    var b := Start(s, text, first);
    var between := KeepAll(q, text, s, k, first);
    CopyTo(q, text, out, from, b, between);
    IdleNotEntry(q, text, s, first, kept);
    KeepNone(q, text, s, first, kept);
    EventAt(q, text, s, first);
    StartsRise(q, text, s, first + 1, kept);
    NowResumes(s, text, Start(s, text, kept), kept);
    if kept < s.parsedNr {
      EventAt(q, text, s, kept);
      HeaderAhead(q, text, s.parsed[kept]);
    } else {
      EndStart(s, text);
    }
    SyncBeforeHeader(q, text, out + Copied(text, from, Swallowed(text, b)), Start(s, text, kept));
  }

  lemma IdleNotEntry(q: RawQuery, text: Bytes, s: StoreState, a: nat, b: nat)
    requires a <= b <= |s.parsed|
    requires forall x :: a <= x < b ==> Idle(s.parsed[x]) || Matched(q, text, s.parsed[x])
    ensures forall x :: a <= x < b && s.parsed[x].ty == Entry ==> Matched(q, text, s.parsed[x])
  {
    hide Matched;
  }

  lemma HeaderAhead(q: RawQuery, text: Bytes, e: Parsed)
    requires SpanOk(q, text, e) && e.ty == Section
    ensures e.begin < |text| && text[e.begin] == LBRACKET && Quiet(ModeAt(text, e.begin))
  {
    hide ModeAt, ItemAt;
  }

  lemma SyncBeforeHeader(q: RawQuery, text: Bytes, out: Bytes, p: nat)
    requires 0 < p <= |text| && Quiet(Walk(INIT, out)) && Pairs(INIT, out) == Keep(q, UpTo(text, p))
    requires p == |text| || (text[p] == LBRACKET && Quiet(ModeAt(text, p)))
    ensures Sync(q, text, out, p)
  {
    hide UpTo, Keep, ModeAt, Walk, Pairs;
  }

  lemma WideCut(s: StoreState, text: Bytes, i: nat)
    requires Usable(s, text) && i < s.seenNr && s.keySeen
    ensures s.seenNr <= |s.seen| && s.seen[i] < |s.parsed| && s.parsed[s.seen[i]].begin <= |text|
    ensures match Widened(s, text, i)
      case None => CutAt(s, text, true, i) ==
        Cut(Swallowed(text, s.parsed[s.seen[i]].begin), s.parsed[s.seen[i]].end, i + 1)
      case Some(w) => CutAt(s, text, true, i) == Cut(Swallowed(text, w.0), w.1, w.2 + 1)
  {
    hide Swallowed, Widened;
  }

  lemma EdgeBehindEntry(s: StoreState, j: nat)
    requires j < s.parsedNr <= |s.parsed| && s.parsed[j].ty == Entry
    ensures Edge(s, j + 1)
  {
  }

  lemma EdgeAtHeader(s: StoreState, k: nat)
    requires k <= s.parsedNr <= |s.parsed|
    requires (k < s.parsedNr ==> s.parsed[k].ty == Section && !s.parsed[k].isKeysSection)
    ensures Edge(s, k)
  {
  }

  /** The first match still to be cut, or the end. */
  function NextSeen(s: StoreState, i: nat): nat { if i < s.seenNr && i < |s.seen| then s.seen[i] else s.parsedNr }

  lemma NextSeenIs(s: StoreState, i: nat)
    requires s.seenNr <= |s.seen|
    ensures NextSeen(s, i) == if i < s.seenNr then s.seen[i] else s.parsedNr
  {
  }

  /** Every match goes, with the sections this leaves empty, and nothing else. */
  lemma {:induction false} RemoveAll(q: RawQuery, text: Bytes, s: StoreState, out: Bytes, i: nat, from: nat, k: nat)
      returns (k2: nat)
    requires FinalGood(q, text, s) && Entries(text).Some? && s.keySeen && Usable(s, text)
    requires i <= s.seenNr && from <= |text| && Sync(q, text, out, from) && Resumes(s, text, from, k) && Edge(s, k)
    requires Behind(s, i) <= k <= NextSeen(s, i) && (i == 0 ==> from == 0) && (i > 0 ==> from > 0)
    ensures var r := Spliced(s, text, true, i, from);
      && Sync(q, text, out + r.0, r.1) && Resumes(s, text, r.1, k2) && (r.1 > 0)
      && Behind(s, s.seenNr) <= k2 <= s.parsedNr
    decreases s.seenNr - i
  {
    hide *;
    SeenFacts(q, text, s, i);
    NextSeenIs(s, i);
    if i >= s.seenNr {
      SplicedDone(s, text, true, i, from);
      assert out + [] == out;
      k2 := k;
    } else {
      var j := s.seen[i];
      WideCut(s, text, i);
      SplicedStep(s, text, true, i, from, out);
      EventAt(q, text, s, j);
      NextSeenIs(s, i + 1);
      SeenFacts(q, text, s, i + 1);
      BehindNext(s, i);
      if Widened(s, text, i).None? {
        CutEntry(q, text, s, out, from, k, j);
        MatchIsEntry(q, text, s.parsed[j]);
        EdgeBehindEntry(s, j);
        k2 := RemoveAll(q, text, s, out + Copied(text, from, Swallowed(text, s.parsed[j].begin)), i + 1,
          s.parsed[j].end, j + 1);
      } else {
        var (first, kept, last) := WideSpan(s, text, i);
        WidenFacts(q, text, s, i, k, first, kept, last);
        CutWide(q, text, s, out, from, k, first, kept);
        EdgeAtHeader(s, kept);
        BehindNext(s, last);
        NextSeenIs(s, last + 1);
        StartsRise(q, text, s, first + 1, kept);
        EventAt(q, text, s, first);
        k2 := RemoveAll(q, text, s, out + Copied(text, from, Swallowed(text, Start(s, text, first))), last + 1,
          Start(s, text, kept), kept);
      }
    }
  }

  /** Unsetting a key leaves exactly the entries that did not match, for every file that has one. */
  lemma UnsetMeaning(q: Query, key: Bytes, text: Bytes, s: StoreState, comment: Option<Bytes>)
    requires Scan(q, text) == Some(s) && s.keySeen && q.baselen < |key|
    ensures Usable(Placed(s), text) && Entries(text).Some?
    ensures Entries(Edited(s, text, key, q.baselen, None, comment)) == Some(Keep(q, Entries(text).value))
  {
    hide *;
    ScanGood(q, text);
    ScanParses(q, text);
    ScanUsable(q, text);
    SeenFacts(q, text, s, 0);
    AlreadyPlaced(s);
    AtTheStart(q, text, s);
    BehindNone(s);
    NextSeenIs(s, 0);
    EdgeAtZero(s);
    var k2 := RemoveAll(q, text, s, [], 0, 0, 0);
    var r := Spliced(s, text, true, 0, 0);
    var out, from := r.0, r.1;
    assert [] + out == out;
    SyncHere(q, text, out, from);
    SeenFacts(q, text, s, s.seenNr);
    var rest := RestReads(text, from, Walk(INIT, out));
    RestKept(q, text, s, from, k2, rest);
    EntriesBehind(out, text[from..], rest);
    KeepConcat(q, UpTo(text, from), rest);
    EditedUnset(s, text, key, q.baselen, comment);
  }

  lemma EdgeAtZero(s: StoreState)
    requires s.parsedNr <= |s.parsed|
    ensures Edge(s, 0)
  {
  }

  lemma EditedUnset(s: StoreState, text: Bytes, key: Bytes, b: nat, comment: Option<Bytes>)
    requires b < |key| && Placed(s) == s && Usable(s, text)
    ensures var r := Spliced(s, text, true, 0, 0);
      Edited(s, text, key, b, None, comment) == r.0 + text[r.1..]
  {
    hide Spliced, Usable;
    var r := Spliced(s, text, true, 0, 0);
    assert r.0 + [] + text[r.1..] == r.0 + text[r.1..];
  }
}

/**
 Setting the same key and value twice.  The second set finds exactly the line the first
 one wrote; it changes a byte only where a blank CR LF line follows.
 */
module ConfigAgain {
  import opened Bytes
  import opened ConfigGrammar
  import opened ConfigScan
  import opened ConfigFacts
  import opened ConfigKey
  import opened ConfigWriter
  import opened ConfigEdit
  import opened ConfigMeaning
  import opened ConfigFresh
  import opened Optional

  // ---- counting matches -----------------------------------------------------------------------------

  function Matches(q: RawQuery, es: seq<Pair>): int { |es| - |Keep(q, es)| }

  lemma MatchesConcat(q: RawQuery, a: seq<Pair>, b: seq<Pair>)
    ensures Matches(q, a + b) == Matches(q, a) + Matches(q, b)
  {
    KeepConcat(q, a, b);
  }

  lemma {:induction false} CountSeen(q: RawQuery, text: Bytes, s: StoreState, i: nat)
    requires FinalGood(q, text, s) && s.keySeen && i <= s.seenNr
    ensures i <= |s.seen| && Behind(s, i) <= s.parsedNr <= |s.parsed| && Start(s, text, Behind(s, i)) <= |text|
    ensures Matches(q, UpTo(text, Start(s, text, Behind(s, i)))) == i
    decreases i
  {
    hide *;
    SeenFacts(q, text, s, i);
    if i == 0 {
      BehindNone(s);
      AtTheStart(q, text, s);
      ResumesHere(s, text, 0, 0);
      NoMatches(q);
    } else {
      CountSeen(q, text, s, i - 1);
      SeenFacts(q, text, s, i - 1);
      BehindNext(s, i - 1);
      var j := s.seen[i - 1];
      var between := KeepAll(q, text, s, Behind(s, i - 1), j);
      EventAt(q, text, s, j);
      SpanAfter(q, text, s.parsed[j]);
      OneMatch(q, text, s.parsed[j]);
      EventKept(q, text, s.parsed[j]);
      MatchesConcat(q, UpTo(text, Start(s, text, Behind(s, i - 1))), between);
      MatchesConcat(q, UpTo(text, s.parsed[j].begin), EventPairs(text, s.parsed[j]));
      CountIs(q, between, EventPairs(text, s.parsed[j]));
    }
  }

  lemma NoMatches(q: RawQuery)
    ensures Matches(q, []) == 0
  {
  }

  lemma CountIs(q: RawQuery, kept: seq<Pair>, gone: seq<Pair>)
    ensures Keep(q, kept) == kept ==> Matches(q, kept) == 0
    ensures Keep(q, gone) == [] ==> Matches(q, gone) == |gone|
  {
  }

  /** The store counts the matches, and marks the key as seen when there is one. */
  lemma SeenCount(q: RawQuery, text: Bytes, s: StoreState)
    requires FinalGood(q, text, s) && Entries(text).Some?
    ensures s.seenNr == Matches(q, Entries(text).value)
    ensures s.keySeen <==> s.seenNr > 0
  {
    hide *;
    UpToEnd(text);
    if s.keySeen {
      CountSeen(q, text, s, s.seenNr);
      SeenFacts(q, text, s, s.seenNr);
      var rest := KeepAll(q, text, s, Behind(s, s.seenNr), s.parsedNr);
      EndStart(s, text);
      MatchesConcat(q, UpTo(text, Start(s, text, Behind(s, s.seenNr))), rest);
      CountIs(q, rest, []);
    } else {
      FreshFacts(q, text, s);
      AtTheStart(q, text, s);
      ResumesHere(s, text, 0, 0);
      var rest := KeepAll(q, text, s, 0, s.parsedNr);
      EndStart(s, text);
      MatchesConcat(q, [], rest);
      NoMatches(q);
      CountIs(q, rest, []);
    }
  }

  // ---- finding the written line ------------------------------------------------------------------------

  /** Reading past an entry delivers its pair. */
  lemma {:induction false} EntryDelivers(m: Mode, stem: Stem, r: Bytes)
    requires InEntry(m, stem) && TopLike(Walk(m, r))
    ensures Pairs(m, r) != []
    decreases |r|
  {
    WalkNothing(m);
    if r != [] {
      var c := CharAt(r);
      EntryChar(m, stem, c);
      WalkUnfold(m, r);
      if InEntry(Delta(m, c), stem) {
        EntryDelivers(Delta(m, c), stem, r[CharLen(r)..]);
      } else if Delta(m, c).Failed? {
        WalkFailed(r[CharLen(r)..]);
      }
    }
  }

  lemma EntryAdvances(text: Bytes, b: nat, x: nat)
    requires b < x <= |text| && Quiet(ModeAt(text, b)) && IsAlpha(text[b]) && TopLike(ModeAt(text, x))
    ensures |PairsBefore(text, x)| > |PairsBefore(text, b)|
  {
    var m := ModeAt(text, b);
    var r := text[b..x];
    assert CharAt(r) == text[b] && CharLen(r) == 1;
    WalkOk(INIT, text[..b]);
    DeltaOk(m, text[b]);
    ModeOn(text, b, x);
    WalkUnfold(m, r);
    EntryDelivers(Delta(m, text[b]), AsTop(m).stem, r[1..]);
  }

  /** Two entries behind equally many pairs are the same entry. */
  lemma SamePlace(text: Bytes, b: nat, x: nat)
    requires b < |text| && Quiet(ModeAt(text, b)) && IsAlpha(text[b])
    requires x < |text| && Quiet(ModeAt(text, x)) && IsAlpha(text[x])
    requires |PairsBefore(text, b)| == |PairsBefore(text, x)|
    ensures b == x
  {
    hide *;
    QuietTop(ModeAt(text, b));
    QuietTop(ModeAt(text, x));
    if b < x { EntryAdvances(text, b, x); }
    if x < b { EntryAdvances(text, x, b); }
  }

  /** An item is over no later than where the text stands between items again. */
  lemma {:induction false} ToTopFirst(m: Mode, r: Bytes, k: nat)
    requires k <= |r| && TopLike(Walk(m, r[..k])) && !(0 < k < |r| && r[k - 1] == CR && r[k] == LF)
    ensures ToTop(m, r).len <= k
    decreases |r|
  {
    assert r[..0] == [];
    WalkNothing(m);
    if TopLike(m) || m.Failed? {
      ToTopDone(m, r);
    } else {
      var c, n := CharAt(r), CharLen(r);
      ItemTakes(m, r, c, n);
      WalkTake(m, r, k);
      ToTopFirst(Delta(m, c), r[n..], k - n);
    }
  }

  /** An entry that ends inside the text ends with a line end. */
  lemma {:induction false} EntryLast(m: Mode, stem: Stem, r: Bytes)
    requires InEntry(m, stem) && !ToTop(m, r).mode.Failed?
    ensures var x := ToTop(m, r).len; x == |r| || (x > 0 && r[x - 1] == LF)
    decreases |r|
  {
    if r != [] {
      var c, n := CharAt(r), CharLen(r);
      EntryChar(m, stem, c);
      ItemTakes(m, r, c, n);
      var m1 := Delta(m, c);
      if InEntry(m1, stem) {
        EntryLast(m1, stem, r[n..]);
      } else {
        TopIsTopLike(m1);
        ToTopDone(m1, r[n..]);
      }
    }
  }

  /** `LF` stands nowhere in a written line but at its end. */
  lemma LineHasOneEnd(name: Bytes, v: Bytes, comment: Option<Bytes>)
    requires NameOk(name) && CommentOk(comment)
    ensures var l := PairLine(name, v, comment);
      |l| >= 2 && l[0] == TAB && l[1] == name[0] && l[|l| - 1] == LF && forall i :: 0 <= i < |l| - 1 ==> l[i] != LF
  {
    EncodedNoEnd(v);
    assert forall i :: 0 <= i < |name| ==> IsKeyChar(name[i]) && name[i] != LF;
    assert comment.Some? ==> LF !in comment.value;
    hide Encoded, NameOk, CommentOk, IsKeyChar;
    var head := [TAB] + name + EQUALS_SIGN + Quotes(v) + Encoded(v) + Quotes(v) + Trailer(comment);
    assert LF !in head;
    assert PairLine(name, v, comment) == head + [LF];
  }

  lemma {:induction false} EncodedNoEnd(v: Bytes)
    ensures LF !in Encoded(v)
  {
    if v != [] { EncodedNoEnd(v[1..]); }
  }

  /** Nothing open: the text is empty or ends with a line end. */
  predicate Shut(p: Bytes) { p == [] || p[|p| - 1] == LF }

  lemma {:induction false} SplicedShut(s: StoreState, text: Bytes, i: nat, from: nat)
    requires Usable(s, text) && from <= |text|
    ensures Shut(Spliced(s, text, false, i, from).0)
    decreases s.seenNr - i
  {
    hide CutAt, Usable;
    if i < s.seenNr {
      var c := CutAt(s, text, false, i);
      SplicedShut(s, text, c.next, c.replaceEnd);
    }
  }

  /** A new file text: what lies before the written line, the line, and the rest. */
  ghost predicate Written(q: Query, text: Bytes, p: Bytes, line: Bytes, r: Bytes, name: Bytes, v: Bytes,
      comment: Option<Bytes>) {
    && text == p + (line + r) && line == PairLine(name, v, comment) && NameOk(name) && CommentOk(comment)
    && Shut(p) && Quiet(Walk(INIT, p)) && StemOf(Walk(INIT, p)).name + LowerAll(name) == q.key
    && q.matcher == Any
  }

  /** The line stands at `|p|`; its entry begins behind the tab and the line is over where `r` begins. */
  lemma LineStands(q: Query, text: Bytes, p: Bytes, line: Bytes, r: Bytes, name: Bytes, v: Bytes,
      comment: Option<Bytes>)
    requires Written(q, text, p, line, r, name, v, comment)
    ensures |line| >= 2 && p <= text && text[..|p|] == p
    ensures text[..|p| + |line|] == p + line && text[|p| + |line|..] == r
    ensures text[|p|] == TAB && IsAlpha(text[|p| + 1]) && text[|p| + |line| - 1] == LF
    ensures forall i :: |p| <= i < |p| + |line| - 1 ==> text[i] != LF
  {
    LineHasOneEnd(name, v, comment);
    hide PairLine, NameOk, Walk;
    assert IsAlpha(name[0]) by { NameStart(name); }
    assert text[..|p| + |line|] == p + line;
    forall i | |p| <= i < |p| + |line| ensures text[i] == line[i - |p|] { }
  }

  lemma WrittenAny(q: Query, text: Bytes, p: Bytes, line: Bytes, r: Bytes, name: Bytes, v: Bytes,
      comment: Option<Bytes>)
    requires Written(q, text, p, line, r, name, v, comment)
    ensures q.matcher == Any
  {
    hide PairLine, NameOk, Walk, CommentOk;
  }

  lemma NameStart(name: Bytes)
    requires NameOk(name)
    ensures name != [] && IsAlpha(name[0])
  {
  }

  /** Where the new entry is read: behind the tab, with the pairs of `p` before it. */
  lemma LineModes(q: Query, text: Bytes, p: Bytes, line: Bytes, r: Bytes, name: Bytes, v: Bytes, comment: Option<Bytes>)
    requires Written(q, text, p, line, r, name, v, comment)
    ensures |p| + 1 < |p| + |line| <= |text|
    ensures Quiet(ModeAt(text, |p| + 1)) && PairsBefore(text, |p| + 1) == Pairs(INIT, p)
    ensures Quiet(ModeAt(text, |p| + |line|))
    ensures PairsBefore(text, |p| + |line|) == Pairs(INIT, p) + [Pair(q.key, Some(ReadBack(v)))]
  {
    hide *;
    LineStands(q, text, p, line, r, name, v, comment);
    WrittenReads(q, text, p, line, r, name, v, comment);
    TabTaken(text, p);
    var m := Walk(INIT, p);
    QuietTop(m);
    WalkConcatTop(INIT, p, [TAB]);
    TabAtTop(m);
    NothingAdded(Pairs(INIT, p));
    WalkConcatTop(INIT, p, line);
    TopQuiet(AsTop(m).stem);
    ReadAt(text, p + [TAB]);
    ReadAt(text, p + line);
  }

  lemma WrittenReads(q: Query, text: Bytes, p: Bytes, line: Bytes, r: Bytes, name: Bytes, v: Bytes,
      comment: Option<Bytes>)
    requires Written(q, text, p, line, r, name, v, comment)
    ensures |text| == |p| + |line| + |r| && Quiet(Walk(INIT, p))
    ensures var m := Walk(INIT, p);
      Walk(m, line) == Top(AsTop(m).stem, false) && Pairs(m, line) == [Pair(q.key, Some(ReadBack(v)))]
  {
    hide Walk, Pairs, PairLine, NameOk, CommentOk, ReadBack, LowerAll;
    var m := Walk(INIT, p);
    PairReads(m, name, v, comment);
    StemOfTop(m);
  }

  lemma TabTaken(text: Bytes, p: Bytes)
    requires |p| < |text| && text[..|p|] == p && text[|p|] == TAB
    ensures text[..|p| + 1] == p + [TAB]
  {
  }

  lemma ReadAt(text: Bytes, s: Bytes)
    requires |s| <= |text| && text[..|s|] == s
    ensures ModeAt(text, |s|) == Walk(INIT, s) && PairsBefore(text, |s|) == Pairs(INIT, s)
  {
  }

  lemma StemOfTop(m: Mode)
    requires TopLike(m)
    ensures StemOf(m) == AsTop(m).stem
  {
  }

  lemma TabAtTop(m: Mode)
    requires Quiet(m)
    ensures Quiet(Walk(m, [TAB])) && Pairs(m, [TAB]) == []
  {
    WalkOne(m, TAB);
  }

  /** The entry of the written line ends with the line. */
  lemma LineItem(q: Query, text: Bytes, p: Bytes, line: Bytes, r: Bytes, name: Bytes, v: Bytes, comment: Option<Bytes>)
    requires Written(q, text, p, line, r, name, v, comment)
    ensures |p| + 1 < |p| + |line| <= |text|
    ensures ItemEnd(text, |p| + 1) == |p| + |line|
  {
    hide *;
    LineStands(q, text, p, line, r, name, v, comment);
    LineModes(q, text, p, line, r, name, v, comment);
    var b, x := |p| + 1, |p| + |line|;
    QuietTop(ModeAt(text, b));
    QuietTop(ModeAt(text, x));
    ItemStart(text, b);
    ItemEndIs(text, b);
    var m1, tail := Delta(ModeAt(text, b), text[b]), text[b + 1..];
    ModeOn(text, b + 1, x);
    assert text[b + 1..x] == tail[..x - b - 1];
    assert tail[x - b - 2] == text[x - 1];
    LfSeam(tail, x - b - 1);
    ToTopFirst(m1, tail, x - b - 1);
    FinishesInTime(m1, tail, x - b - 1);
    EntryLast(m1, StemAt(text, b), tail);
    var len := ItemAt(text, b).len;
    assert 0 < len <= |tail| ==> tail[len - 1] == text[b + len];
  }

  lemma LfSeam(r: Bytes, k: nat)
    requires 0 < k <= |r| && r[k - 1] == LF
    ensures !(0 < k < |r| && r[k - 1] == CR && r[k] == LF)
  {
  }

  lemma ItemStart(text: Bytes, b: nat)
    requires b < |text| && Quiet(ModeAt(text, b)) && IsAlpha(text[b])
    ensures InEntry(Delta(ModeAt(text, b), text[b]), StemAt(text, b))
    ensures ModeAt(text, b + 1) == Delta(ModeAt(text, b), text[b]) && Whole(text, b + 1)
    ensures InItem(Delta(ModeAt(text, b), text[b]))
  {
    WalkOk(INIT, text[..b]);
    DeltaOk(ModeAt(text, b), text[b]);
    assert CharAt(text[b..]) == text[b] && CharLen(text[b..]) == 1;
    ModeChar(text, b);
  }

  /** An item over which the text gets between items again does not fail. */
  lemma {:induction false} FinishesInTime(m: Mode, r: Bytes, k: nat)
    requires k <= |r| && TopLike(Walk(m, r[..k])) && !(0 < k < |r| && r[k - 1] == CR && r[k] == LF)
    ensures !ToTop(m, r).mode.Failed?
    decreases |r|
  {
    assert r[..0] == [];
    WalkNothing(m);
    if m.Failed? {
      WalkFailed(r[..k]);
    } else if TopLike(m) {
      ToTopDone(m, r);
    } else {
      var c, n := CharAt(r), CharLen(r);
      ItemTakes(m, r, c, n);
      WalkTake(m, r, k);
      FinishesInTime(Delta(m, c), r[n..], k - n);
    }
  }

  /** The only match of the new text is the written line. */
  lemma OnlyMatch(q: RawQuery, a: seq<Pair>, p: Pair, b: seq<Pair>, k: nat)
    requires Keep(q, a) == a && Keep(q, b) == b && k < |a + [p] + b| && q.Matches((a + [p] + b)[k])
    ensures k == |a|
  {
    if k < |a| { KeptUnmatched(q, a, k); }
    if k > |a| { KeptUnmatched(q, b, k - |a| - 1); }
  }

  lemma {:induction false} KeptUnmatched(q: RawQuery, a: seq<Pair>, k: nat)
    requires Keep(q, a) == a && k < |a|
    ensures !q.Matches(a[k])
  {
    KeepShort(q, a[1..]);
    if k > 0 {
      assert a == [a[0]] + a[1..];
      KeptUnmatched(q, a[1..], k - 1);
    }
  }

  /** The scan of the new text sees the key once, at the written line. */
  lemma LineFound(q: Query, text: Bytes, p: Bytes, line: Bytes, r: Bytes, name: Bytes, v: Bytes, comment: Option<Bytes>,
      rest: seq<Pair>, s: StoreState)
    requires Written(q, text, p, line, r, name, v, comment) && Scan(q, text) == Some(s)
    requires Keep(q, Pairs(INIT, p)) == Pairs(INIT, p) && Keep(q, rest) == rest
    requires Entries(text) == Some(Pairs(INIT, p) + [Pair(q.key, Some(ReadBack(v)))] + rest)
    ensures s.keySeen && s.seenNr == 1 <= |s.seen| && s.seen[0] < s.parsedNr <= |s.parsed|
    ensures s.parsed[s.seen[0]].begin == |p| + 1
    ensures s.parsed[s.seen[0]].end == |p| + |line| + if AtCrLf(text, |p| + |line|) then 1 else 0
  {
    hide *;
    var es, new_ := Entries(text).value, Pair(q.key, Some(ReadBack(v)));
    ScanGood(q, text);
    SeenCount(q, text, s);
    MatchesConcat(q, Pairs(INIT, p) + [new_], rest);
    MatchesConcat(q, Pairs(INIT, p), [new_]);
    WrittenAny(q, text, p, line, r, name, v, comment);
    AnyMatches(q, new_);
    CountIs(q, Pairs(INIT, p), [new_]);
    CountIs(q, rest, []);
    SeenFacts(q, text, s, 0);
    BehindNone(s);
    var j := s.seen[0];
    var e := s.parsed[j];
    EventAt(q, text, s, j);
    SpanAfter(q, text, e);
    MatchedSpan(q, text, e);
    OneMatch(q, text, e);
    // The entry found is the one the line is read as.
    PrefixEntries(q, text, s, j);
    OnlyMatch(q, Pairs(INIT, p), new_, rest, |UpTo(text, e.begin)|);
    QuietTop(ModeAt(text, e.begin));
    UpToTop(text, e.begin);
    LineModes(q, text, p, line, r, name, v, comment);
    LineStands(q, text, p, line, r, name, v, comment);
    MatchedAlpha(q, text, e);
    SamePlace(text, e.begin, |p| + 1);
    LineItem(q, text, p, line, r, name, v, comment);
    // Its event reaches to the next one, over the CR of a blank CR LF line.
    EntryEnds(q, text, e);
    if j + 1 < s.parsedNr {
      EventAt(q, text, s, j + 1);
      NotCrLf(q, text, s.parsed[j + 1]);
      StartOf(s, text, j + 1);
    } else {
      EndStart(s, text);
      NoCrLfAtEnd(text);
    }
  }

  lemma StartOf(s: StoreState, text: Bytes, k: nat)
    requires k < s.parsedNr <= |s.parsed|
    ensures Start(s, text, k) == s.parsed[k].begin
  {
  }

  lemma AnyMatches(q: Query, p: Pair)
    ensures q.matcher == Any && p.key == q.key ==> Keep(q, [p]) == []
  {
    KeepOne(q, p);
  }

  lemma MatchedAlpha(q: RawQuery, text: Bytes, e: Parsed)
    requires SpanOk(q, text, e) && Matched(q, text, e)
    ensures e.begin < |text| && IsAlpha(text[e.begin])
  {
    hide ModeAt, ItemAt;
  }

  lemma EntryEnds(q: RawQuery, text: Bytes, e: Parsed)
    requires SpanOk(q, text, e) && e.ty == Entry
    ensures e.begin < |text|
    ensures e.end == ItemEnd(text, e.begin) ||
      (e.end == ItemEnd(text, e.begin) + 1 && AtCrLf(text, ItemEnd(text, e.begin)))
  {
    hide ModeAt, ItemAt;
  }

  /** The pairs of an event follow those before it in the whole file's entries. */
  lemma PrefixEntries(q: RawQuery, text: Bytes, s: StoreState, j: nat)
    requires FinalGood(q, text, s) && Entries(text).Some? && j < s.parsedNr <= |s.parsed|
    requires Matched(q, text, s.parsed[j])
    ensures s.parsed[j].begin < |text|
    ensures var k := |UpTo(text, s.parsed[j].begin)|; k < |Entries(text).value| && q.Matches(Entries(text).value[k])
  {
    hide *;
    EventAt(q, text, s, j);
    SpanAfter(q, text, s.parsed[j]);
    OneMatch(q, text, s.parsed[j]);
    var rest := Onward(q, text, s, j + 1);
  }

  /** What the events from `k` on deliver. */
  lemma {:induction false} Onward(q: RawQuery, text: Bytes, s: StoreState, k: nat) returns (rest: seq<Pair>)
    requires FinalGood(q, text, s) && Entries(text).Some? && k <= s.parsedNr <= |s.parsed|
    ensures Start(s, text, k) <= |text|
    ensures Entries(text).value == UpTo(text, Start(s, text, k)) + rest
    decreases s.parsedNr - k
  {
    hide *;
    StartBound(q, text, s, k);
    if k == s.parsedNr {
      EndStart(s, text);
      UpToEnd(text);
      rest := [];
      NothingAdded(UpTo(text, |text|));
    } else {
      EventAt(q, text, s, k);
      SpanAfter(q, text, s.parsed[k]);
      var more := Onward(q, text, s, k + 1);
      rest := EventPairs(text, s.parsed[k]) + more;
      Assoc(UpTo(text, s.parsed[k].begin), EventPairs(text, s.parsed[k]), more);
    }
  }

  lemma {:induction false} KeepTwice(q: RawQuery, es: seq<Pair>)
    ensures Keep(q, Keep(q, es)) == Keep(q, es)
  {
    if es != [] { KeepTwice(q, es[1..]); }
  }

  lemma {:induction false} KeepWhole(q: RawQuery, es: seq<Pair>)
    requires |Keep(q, es)| == |es|
    ensures Keep(q, es) == es
  {
    if es != [] {
      KeepShort(q, es[1..]);
      KeepWhole(q, es[1..]);
    }
  }

  /** Entries without a match stay without one in parts. */
  lemma NoMatchParts(q: RawQuery, a: seq<Pair>, b: seq<Pair>)
    requires Matches(q, a + b) == 0
    ensures Keep(q, a) == a && Keep(q, b) == b
  {
    KeepConcat(q, a, b);
    KeepShort(q, a);
    KeepShort(q, b);
    KeepWhole(q, a);
    KeepWhole(q, b);
  }

  lemma SwallowTab(text: Bytes, p: nat)
    requires p < |text| && text[p] == TAB && (p == 0 || text[p - 1] == LF)
    ensures Swallowed(text, p + 1) == p
  {
    assert Swallowed(text, p + 1) == Swallowed(text, p);
  }

  /** The second set writes the line where it stands, and drops the CR of a blank CR LF line behind it. */
  lemma SecondSet(q: Query, key: Bytes, text: Bytes, p: Bytes, line: Bytes, r: Bytes, v: Bytes, comment: Option<Bytes>,
      s: StoreState)
    requires q.baselen < |key| && Written(q, text, p, line, r, key[q.baselen + 1..], v, comment)
    requires Usable(s, text) && Placed(s) == s
    requires s.keySeen && s.sectionSeen && s.seenNr == 1 <= |s.seen| && s.seen[0] < s.parsedNr <= |s.parsed|
    requires s.parsed[s.seen[0]].begin == |p| + 1
    requires s.parsed[s.seen[0]].end == |p| + |line| + if AtCrLf(text, |p| + |line|) then 1 else 0
    ensures Edited(s, text, key, q.baselen, Some(v), comment) == text <==> !AtCrLf(text, |p| + |line|)
  {
    hide *;
    LineStands(q, text, p, line, r, key[q.baselen + 1..], v, comment);
    WrittenLine(q, text, p, line, r, key[q.baselen + 1..], v, comment);
    SecondSplice(text, p, s);
    EditedSeen(s, text, key, q.baselen, v, comment);
    Resumed(text, p, line, s.parsed[s.seen[0]].end);
  }

  lemma SecondSplice(text: Bytes, p: Bytes, s: StoreState)
    requires Usable(s, text) && s.keySeen && s.seenNr == 1 <= |s.seen| && s.seen[0] < |s.parsed|
    requires s.parsed[s.seen[0]].begin == |p| + 1 && |p| < |text| && text[|p|] == TAB && p <= text && Shut(p)
    ensures Spliced(s, text, false, 0, 0).0 == p && Spliced(s, text, false, 0, 0).1 == s.parsed[s.seen[0]].end <= |text|
  {
    hide *;
    var end := s.parsed[s.seen[0]].end;
    PlainCut(s, text, 0);
    CutBounds(s, text, 0);
    ShutEnd(p);
    SwallowTab(text, |p|);
    CopiedHead(text, p);
    SplicedOnce(s, text, Cut(|p|, end, 1));
  }

  /** A single cut. */
  lemma SplicedOnce(s: StoreState, text: Bytes, c: Cut)
    requires Usable(s, text) && s.seenNr == 1 && CutAt(s, text, false, 0) == c && c.next >= 1
    requires c.copyEnd <= |text| && c.replaceEnd <= |text|
    ensures Spliced(s, text, false, 0, 0) == (Copied(text, 0, c.copyEnd), c.replaceEnd)
  {
    hide *;
    SplicedStep(s, text, false, 0, 0, []);
    SplicedDone(s, text, false, c.next, c.replaceEnd);
    var r, copied := Spliced(s, text, false, 0, 0), Copied(text, 0, c.copyEnd);
    assert [] + r.0 == r.0 && [] + copied + [] == copied;
  }

  lemma ShutEnd(p: Bytes)
    requires Shut(p)
    ensures p == [] || p[|p| - 1] == LF
  {
    hide Walk;
  }

  lemma WrittenLine(q: Query, text: Bytes, p: Bytes, line: Bytes, r: Bytes, name: Bytes, v: Bytes,
      comment: Option<Bytes>)
    requires Written(q, text, p, line, r, name, v, comment)
    ensures line == PairLine(name, v, comment) && Shut(p) && (p == [] || p[|p| - 1] == LF) && text == p + (line + r)
  {
    hide PairLine, NameOk, Walk, CommentOk;
  }

  lemma Resumed(text: Bytes, p: Bytes, line: Bytes, end: nat)
    requires |p| + |line| <= end <= |text| && text[..|p| + |line|] == p + line
    ensures p + (line + text[end..]) == text <==> end == |p| + |line|
  {
    if end == |p| + |line| {
      assert text == text[..end] + text[end..];
      assert p + (line + text[end..]) == p + line + text[end..];
    } else {
      assert |p + (line + text[end..])| < |text|;
    }
  }

  lemma CopiedHead(text: Bytes, p: Bytes)
    requires p <= text && Shut(p)
    ensures Copied(text, 0, |p|) == p
  {
    assert text[0..|p|] == p;
  }

  /** A first set that will be read back leaves a text of the form `Written`. */
  lemma FirstSet(q: Query, key: Bytes, text: Bytes, s: StoreState, v: Bytes, comment: Option<Bytes>, from: nat)
      returns (p: Bytes, rest: seq<Pair>)
    requires Scan(q, text) == Some(s) && q.matcher == Any
    requires WellFormedKey(key, q.baselen) && q.key == Canonical(key, q.baselen) && CommentOk(comment)
    requires Usable(Placed(s), text) && (s.keySeen || s.seenNr == 0) && Recognized(q, text, s)
    requires from == Spliced(Placed(s), text, false, 0, 0).1
    ensures q.baselen < |key| && from <= |text|
    ensures var out, name := Edited(s, text, key, q.baselen, Some(v), comment), key[q.baselen + 1..];
      && Written(q, out, p, PairLine(name, v, comment), text[from..], name, v, comment)
      && Keep(q, Pairs(INIT, p)) == Pairs(INIT, p) && Keep(q, rest) == rest
      && Entries(out) == Some(Pairs(INIT, p) + [Pair(q.key, Some(ReadBack(v)))] + rest)
    ensures s.keySeen ==> !AtCrLf(text, from)
  {
    hide *;
    ScanParses(q, text);
    ScanGood(q, text);
    CanonicalName(key, q.baselen);
    var name := key[q.baselen + 1..];
    if s.keySeen {
      SeenFacts(q, text, s, 0);
      AlreadyPlaced(s);
      p := Spliced(s, text, false, 0, 0).0;
      rest := SetSeenParts(q, key, text, s, v, comment, p, from);
      SplicedShut(s, text, 0, 0);
      KeepTwice(q, UpTo(text, from));
    } else {
      RecognizedFresh(q, text, s);
      OneCut(s, text);
      p, rest := SetFreshParts(q, key, text, s, v, comment);
      SameStem(s, text, key[..q.baselen]);
      SplicedShut(Placed(s), text, 0, 0);
      FreshShut(s, text, key, q.baselen);
      SeenCount(q, text, s);
      NoMatchParts(q, UpTo(text, from), rest);
    }
    QuietTop(Walk(INIT, p));
    NewLineReads(Walk(INIT, p), name, v, comment, text[from..], rest);
    EntriesBehind(p, PairLine(name, v, comment) + text[from..], [Pair(q.key, Some(ReadBack(v)))] + rest);
    Assoc(Pairs(INIT, p), [Pair(q.key, Some(ReadBack(v)))], rest);
    NowWritten(q, p, PairLine(name, v, comment), text[from..], name, v, comment);
  }

  lemma NowWritten(q: Query, p: Bytes, line: Bytes, r: Bytes, name: Bytes, v: Bytes, comment: Option<Bytes>)
    requires line == PairLine(name, v, comment) && NameOk(name) && CommentOk(comment)
    requires Shut(p) && Quiet(Walk(INIT, p)) && StemOf(Walk(INIT, p)).name + LowerAll(name) == q.key && q.matcher == Any
    ensures Written(q, p + (line + r), p, line, r, name, v, comment)
  {
    hide PairLine, NameOk, CommentOk, Walk;
  }

  lemma FreshShut(s: StoreState, text: Bytes, key: Bytes, b: nat)
    requires Usable(Placed(s), text) && !s.keySeen && s.seenNr == 0 && b <= |key|
    requires Shut(Copied(text, 0, InsertAt(s, text)))
    ensures Shut(Copied(text, 0, InsertAt(s, text)) + if s.sectionSeen then [] else SectionLine(key[..b]))
  {
    hide InsertAt, Usable, Copied, Escaped;
    assert Copied(text, 0, InsertAt(s, text)) + [] == Copied(text, 0, InsertAt(s, text));
    var h := SectionLine(key[..b]);
    assert h[|h| - 1] == LF;
  }

  /** `Faithful`, but for the value itself. */
  ghost predicate Recognized(q: Query, text: Bytes, s: StoreState)
    requires Usable(Placed(s), text) && (s.keySeen || s.seenNr == 0)
  {
    !s.keySeen ==>
      && text != BOM
      && (InsertAt(s, text) == |text| ==> !Dangling(text))
      && (s.sectionSeen ==> InsertStem(s, text, []).name == q.key[..q.baselen + 1])
  }

  lemma RecognizedFresh(q: Query, text: Bytes, s: StoreState)
    requires Usable(Placed(s), text) && !s.keySeen && s.seenNr == 0 && Recognized(q, text, s)
    ensures text != BOM && (InsertAt(s, text) == |text| ==> !Dangling(text))
    ensures s.sectionSeen ==> InsertStem(s, text, []).name == q.key[..q.baselen + 1]
  {
  }

  /**
   Setting the same key and value again, any pattern aside: the key is found once, and the
   file stays as it is, byte for byte, exactly when no CR LF stood where copying resumed.
   That is always so when the first set replaced something.
   */
  lemma SetTwice(q: Query, key: Bytes, text: Bytes, s: StoreState, v: Bytes, comment: Option<Bytes>)
      returns (s2: StoreState)
    requires Scan(q, text) == Some(s) && q.matcher == Any
    requires WellFormedKey(key, q.baselen) && q.key == Canonical(key, q.baselen) && CommentOk(comment)
    requires Usable(Placed(s), text) && (s.keySeen || s.seenNr == 0) && Recognized(q, text, s)
    ensures var out, resume :=
      Edited(s, text, key, q.baselen, Some(v), comment), Spliced(Placed(s), text, false, 0, 0).1;
      && Scan(q, out) == Some(s2) && s2.keySeen && s2.seenNr == 1 && Usable(Placed(s2), out)
      && (Edited(s2, out, key, q.baselen, Some(v), comment) == out <==> !AtCrLf(text, resume))
      && (s.keySeen ==> !AtCrLf(text, resume))
  {
    hide *;
    CanonicalName(key, q.baselen);
    var from := Spliced(Placed(s), text, false, 0, 0).1;
    var p, rest := FirstSet(q, key, text, s, v, comment, from);
    var out, name := Edited(s, text, key, q.baselen, Some(v), comment), key[q.baselen + 1..];
    var line := PairLine(name, v, comment);
    ScanParses(q, out);
    s2 := Scan(q, out).value;
    LineFound(q, out, p, line, text[from..], name, v, comment, rest, s2);
    ScanUsable(q, out);
    ScanGood(q, out);
    SeenFacts(q, out, s2, 0);
    AlreadyPlaced(s2);
    SecondSet(q, key, out, p, line, text[from..], v, comment, s2);
    LineStands(q, out, p, line, text[from..], name, v, comment);
    CrLfShift(text, from, out, |p| + |line|);
  }

  lemma CrLfShift(text: Bytes, from: nat, out: Bytes, at: nat)
    requires from <= |text| && at <= |out| && text[from..] == out[at..]
    ensures AtCrLf(text, from) <==> AtCrLf(out, at)
  {
    assert from + 1 < |text| ==> text[from] == text[from..][0] && text[from + 1] == text[from..][1];
    assert at + 1 < |out| ==> out[at] == out[at..][0] && out[at + 1] == out[at..][1];
  }

  // ---- the verdict ---------------------------------------------------------------------------------------

  /** Which files an edit refuses: those that do not parse, and those with too few or too many matches. */
  lemma EditVerdict(q: Query, key: Bytes, text: Bytes, value: Option<Bytes>, comment: Option<Bytes>)
    requires q.baselen < |key|
    ensures var r := Edit(q, key, Some(text), value, comment);
      match Entries(text)
      case None => r == InvalidFile
      case Some(es) =>
        && (r == NothingSet <==> (value.None? && Matches(q, es) == 0) || (Matches(q, es) > 1 && !q.multiReplace))
        && (r != NothingSet ==> r.Written?)
  {
    hide Matches, Scan, Edited, Entries, Usable;
    ScanParses(q, text);
    if Scan(q, text).Some? {
      ScanGood(q, text);
      SeenCount(q, text, Scan(q, text).value);
    }
  }

  /** A file that does not exist yet is made of the one entry, as long as its value survives. */
  lemma NewFile(q: Query, key: Bytes, v: Bytes, comment: Option<Bytes>)
    requires WellFormedKey(key, q.baselen) && q.key == Canonical(key, q.baselen) && CommentOk(comment)
    ensures q.baselen < |key|
    ensures var r := Edit(q, key, None, Some(v), comment);
      r.Written? && (Entries(r.out) == Some([Pair(q.key, Some(v))]) <==> Survives(v))
  {
    hide *;
    CanonicalName(key, q.baselen);
    ReadBackExact(v);
    var base, name := key[..q.baselen], key[q.baselen + 1..];
    var line, t := PairLine(name, v, comment), Top(BaseStem(base), false);
    InitQuiet();
    HeaderReads(INIT, base);
    TopQuiet(BaseStem(base));
    QuietTop(t);
    NothingLeft(t);
    NewLineReads(t, name, v, comment, [], []);
    assert line + [] == line;
    NothingAdded([Pair(q.key, Some(ReadBack(v)))]);
    EntriesBehind(SectionLine(base), line, [Pair(q.key, Some(ReadBack(v)))]);
    OneAlone(Pair(q.key, Some(ReadBack(v))));
    NewFileIs(q, key, v, comment);
    if ReadBack(v) != v { assert [Pair(q.key, Some(ReadBack(v)))][0] != [Pair(q.key, Some(v))][0]; }
  }

  lemma InitQuiet()
    ensures Quiet(INIT)
  {
  }

  lemma OneAlone(p: Pair)
    ensures [] + [p] == [p]
  {
  }

  lemma NewFileIs(q: Query, key: Bytes, v: Bytes, comment: Option<Bytes>)
    requires q.baselen < |key|
    ensures Edit(q, key, None, Some(v), comment) ==
      EditResult.Written(SectionLine(key[..q.baselen]) + PairLine(key[q.baselen + 1..], v, comment))
  {
  }

  /** What `maybe_remove_section` cuts, event by event. */
  lemma WidenRemovesOwn(q: RawQuery, text: Bytes, s: StoreState, i: nat) returns (first: nat, kept: nat)
    requires FinalGood(q, text, s) && s.keySeen && Usable(s, text) && i < s.seenNr && Widened(s, text, i).Some?
    ensures first < kept <= s.parsedNr <= |s.parsed|
    ensures Widened(s, text, i).value.0 == s.parsed[first].begin
    ensures Widened(s, text, i).value.1 == s.parsed[kept - 1].end
    ensures forall x :: first <= x < kept - 1 ==> s.parsed[x].end == s.parsed[x + 1].begin
    ensures forall x :: first <= x < kept ==> SpanOk(q, text, s.parsed[x]) && s.parsed[x].ty != Comment
    ensures forall x :: first <= x < kept && s.parsed[x].ty == Entry ==> Matched(q, text, s.parsed[x])
    ensures forall x :: first <= x < kept && s.parsed[x].ty == Section ==> s.parsed[x].isKeysSection
  {
    hide Matched, SpanOk, Widened, Usable, FinalGood;
    SeenFacts(q, text, s, i);
    EdgeAtZero(s);
    var last := WideSpan(s, text, i).2;
    first, kept := WideSpan(s, text, i).0, WideSpan(s, text, i).1;
    WidenFacts(q, text, s, i, 0, first, kept, last);
    EventAt(q, text, s, first);
    EventAt(q, text, s, kept - 1);
    forall x | first <= x < kept
      ensures SpanOk(q, text, s.parsed[x]) && (x + 1 < kept ==> s.parsed[x].end == s.parsed[x + 1].begin)
      ensures s.parsed[x].ty != Comment && (s.parsed[x].ty == Entry ==> Matched(q, text, s.parsed[x]))
      ensures (s.parsed[x].ty == Section ==> s.parsed[x].isKeysSection)
    {
      EventAt(q, text, s, x);
      if Matched(q, text, s.parsed[x]) { MatchIsEntry(q, text, s.parsed[x]); }
    }
  }

  // ---- the place of an insertion ---------------------------------------------------------------------------

  /** `key` names a variable of the query's own section. */
  predicate UnderKey(q: Query, key: Bytes) {
    && q.baselen + 1 < |key| && key[..q.baselen + 1] == q.key[..q.baselen + 1]
    && forall i :: q.baselen < i < |key| ==> key[i] != DOT
  }

  lemma UnderIsAnchor(q: Query, text: Bytes, e: Parsed)
    requires SpanOk(q, text, e) && e.ty == Entry
    ensures e.begin < |text| && |ItemAt(text, e.begin).pairs| == 1
    ensures UnderKey(q, ItemAt(text, e.begin).pairs[0].key) ==> Anchor(q, text, e)
  {
    EntryMode(text, e.begin);
    var stem, key := StemAt(text, e.begin), ItemAt(text, e.begin).pairs[0].key;
    hide ItemAt, StemAt, ModeAt, SpanOk;
    if UnderKey(q, key) {
      assert key[q.baselen] == key[..q.baselen + 1][q.baselen] == DOT;
      assert q.baselen < |stem.name|;
      assert key[|stem.name| - 1] == stem.name[|stem.name| - 1] == DOT;
      assert stem.name == key[..q.baselen + 1];
    }
  }

  lemma {:induction false} OnwardOutside(q: Query, text: Bytes, s: StoreState, k: nat) returns (rest: seq<Pair>)
    requires FinalGood(q, text, s) && Entries(text).Some? && k <= s.parsedNr <= |s.parsed|
    requires forall x :: k <= x < s.parsedNr ==> !Anchor(q, text, s.parsed[x])
    ensures Start(s, text, k) <= |text| && Entries(text).value == UpTo(text, Start(s, text, k)) + rest
    ensures forall i :: 0 <= i < |rest| ==> !UnderKey(q, rest[i].key)
    decreases s.parsedNr - k
  {
    hide *;
    StartBound(q, text, s, k);
    if k == s.parsedNr {
      EndStart(s, text);
      UpToEnd(text);
      rest := [];
      NothingAdded(UpTo(text, |text|));
    } else {
      var e := s.parsed[k];
      EventAt(q, text, s, k);
      SpanAfter(q, text, e);
      var more := OnwardOutside(q, text, s, k + 1);
      rest := EventPairs(text, e) + more;
      Assoc(UpTo(text, e.begin), EventPairs(text, e), more);
      EventKept(q, text, e);
      if e.ty == Entry {
        UnderIsAnchor(q, text, e);
        EntryPairsAre(text, e);
      }
    }
  }

  lemma EntryPairsAre(text: Bytes, e: Parsed)
    requires e.begin < |text| && e.ty == Entry
    ensures EventPairs(text, e) == ItemAt(text, e.begin).pairs
  {
  }

  /** An inserted line goes behind the last entry of the key's section. */
  lemma InsertedLast(q: Query, text: Bytes, s: StoreState) returns (rest: seq<Pair>)
    requires FinalGood(q, text, s) && Entries(text).Some? && !s.keySeen
    requires s.seenNr == 0 && s.sectionSeen && Usable(Placed(s), text)
    ensures Entries(text).value == UpTo(text, InsertAt(s, text)) + rest
    ensures forall i :: 0 <= i < |rest| ==> !UnderKey(q, rest[i].key)
  {
    hide *;
    FreshFacts(q, text, s);
    var j := s.seen[0];
    rest := OnwardOutside(q, text, s, j + 1);
    EventAt(q, text, s, j);
    AnchorEnds(q, text, s.parsed[j]);
    InsertAtIs(s, text);
    if WithLineEnd(text, s.parsed[j].end) != s.parsed[j].end {
      LineEndThere(text, s.parsed[j].end);
      TopQuiet(AnchorStem(text, s.parsed[j]));
      LineEndBehind(text, s.parsed[j].end);
      SameUpTo(text, s.parsed[j].end, s.parsed[j].end + 1);
    }
  }

  lemma InsertAtIs(s: StoreState, text: Bytes)
    requires Usable(Placed(s), text) && !s.keySeen && s.seenNr == 0 && s.sectionSeen && s.seenTouched && |s.seen| == 1
    ensures s.seen[0] < |s.parsed| && s.parsed[s.seen[0]].end <= |text|
    ensures InsertAt(s, text) == WithLineEnd(text, s.parsed[s.seen[0]].end)
  {
  }

  lemma LineEndThere(text: Bytes, x: nat)
    requires x <= |text| && WithLineEnd(text, x) != x
    ensures x < |text| && text[x] == LF && WithLineEnd(text, x) == x + 1
  {
  }

  lemma SameUpTo(text: Bytes, a: nat, b: nat)
    requires a <= |text| && b <= |text| && ModeAt(text, a) == ModeAt(text, b)
    requires PairsBefore(text, a) == PairsBefore(text, b)
    ensures UpTo(text, a) == UpTo(text, b)
  {
  }
}
